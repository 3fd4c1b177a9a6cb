/** Backfill Phase 1: the scan for rows with missing vectors, and the batched embedding
    pass with its per-row fallback and failure counters. */
module Backfill {
  import opened Common

  datatype Vec = Vec(data: seq<real>)

  /** One table row. `text` is `None` when extracting the embed text raises; `hasSubject`
      of the table spec says whether the subject columns exist at all. */
  datatype Rec = Rec(id: string, text: Option<string>, subject: Option<string>,
                     vector: Option<Vec>, subjectVector: Option<Vec>)

  datatype NullRow = NullRow(id: string, text: string, subjectText: Option<string>, tokens: nat,
                             needsPrimary: bool, needsSubject: bool)

  /** What the outside world answers: per-text embedding (`None` raises), whether the
      batch request of a side starting at a given row is down, whether a row's write
      goes through, and the token count of a text. */
  datatype Env = Env(embed: string -> Option<Vec>, outage: (nat, bool) -> bool,
                     writable: string -> bool, countTokens: string -> nat)

  datatype Result = Result(processed: nat, failed: nat, tokens: nat)

  // ── Scan ────────────────────────────────────────────────────────────────

  /** `row.get("subject") or None`, for specs that have a subject at all. */
  function SubjectText(r: Rec, hasSubject: bool): Option<string> {
    if hasSubject && r.subject.Some? && r.subject.value != "" then r.subject else None
  }

  predicate NullFilter(r: Rec, hasSubject: bool) {
    r.vector.None? || (hasSubject && r.subjectVector.None?)
  }

  datatype Extraction = Work(row: NullRow) | RowSkipped | BadShape

  function ExtractRow(r: Rec, hasSubject: bool, env: Env): Extraction {
    if r.text.None? then BadShape
    else
      var subjectText := SubjectText(r, hasSubject);
      var needsPrimary := r.vector.None?;
      var needsSubject := hasSubject && subjectText.Some? && r.subjectVector.None?;
      if !needsPrimary && !needsSubject then RowSkipped
      else
        var source := if needsSubject then r.text.value + " " + subjectText.value else r.text.value;
        Work(NullRow(r.id, r.text.value, subjectText, env.countTokens(source), needsPrimary, needsSubject))
  }

  /** The backlog row of a record, if the scan yields one. */
  function RowOf(r: Rec, hasSubject: bool, env: Env): Option<NullRow> {
    if NullFilter(r, hasSubject) && ExtractRow(r, hasSubject, env).Work?
    then Some(ExtractRow(r, hasSubject, env).row) else None
  }

  function Backlog(table: seq<Rec>, hasSubject: bool, env: Env): seq<NullRow> {
    if table == [] then []
    else
      var rest := Backlog(table[..|table| - 1], hasSubject, env);
      var row := RowOf(table[|table| - 1], hasSubject, env);
      if row.Some? then rest + [row.value] else rest
  }

  predicate Unreadable(r: Rec, hasSubject: bool) {
    NullFilter(r, hasSubject) && r.text.None?
  }

  function CountUnreadable(table: seq<Rec>, hasSubject: bool): nat {
    if table == [] then 0
    else CountUnreadable(table[..|table| - 1], hasSubject) + if Unreadable(table[|table| - 1], hasSubject) then 1 else 0
  }

  method ScanNullVectorBacklog(table: seq<Rec>, hasSubject: bool, env: Env)
    returns (rows: seq<NullRow>, scanFailed: nat)
    ensures rows == Backlog(table, hasSubject, env)
    ensures scanFailed == CountUnreadable(table, hasSubject)
  {
    rows, scanFailed := [], 0;
    for i := 0 to |table|
      invariant rows == Backlog(table[..i], hasSubject, env)
      invariant scanFailed == CountUnreadable(table[..i], hasSubject)
    {
      assert table[..i + 1][..i] == table[..i];
      if NullFilter(table[i], hasSubject) {
        match ExtractRow(table[i], hasSubject, env)
        case BadShape => scanFailed := scanFailed + 1;
        case RowSkipped =>
        case Work(row) => rows := rows + [row];
      }
    }
    assert table[..|table|] == table;
  }

  // ── One row at a time ───────────────────────────────────────────────────

  function PrimaryOf(row: NullRow, env: Env): Option<Vec> {
    if row.needsPrimary then env.embed(row.text) else None
  }

  function SubjectOf(row: NullRow, env: Env): Option<Vec> {
    if row.needsSubject && row.subjectText.Some? then env.embed(row.subjectText.value) else None
  }

  predicate HasUpdate(row: NullRow, env: Env) {
    PrimaryOf(row, env).Some? || SubjectOf(row, env).Some?
  }

  predicate PrimaryPoisoned(row: NullRow, env: Env) {
    row.needsPrimary && PrimaryOf(row, env).None?
  }

  predicate SideGap(row: NullRow, hasSubject: bool, env: Env) {
    || PrimaryPoisoned(row, env)
    || (hasSubject && row.needsSubject && row.subjectText.Some? && SubjectOf(row, env).None?)
  }

  predicate Writes(row: NullRow, env: Env) {
    HasUpdate(row, env) && env.writable(row.id)
  }

  predicate IsProcessed(row: NullRow, hasSubject: bool, env: Env) {
    Writes(row, env) && !SideGap(row, hasSubject, env)
  }

  /** Failures a row is charged with before, and after, its write is attempted. */
  function EarlyFailures(row: NullRow, env: Env): nat {
    if PrimaryPoisoned(row, env) then 1 else 0
  }

  function LateFailures(row: NullRow, hasSubject: bool, env: Env): nat {
    if HasUpdate(row, env) && (!env.writable(row.id) || SideGap(row, hasSubject, env)) then 1 else 0
  }

  /** The rows that count as processed, the failures charged, and the tokens embedded. */
  function Processed(rows: seq<NullRow>, hasSubject: bool, env: Env): nat {
    if rows == [] then 0
    else Processed(rows[..|rows| - 1], hasSubject, env) + if IsProcessed(rows[|rows| - 1], hasSubject, env) then 1 else 0
  }

  function Failures(row: NullRow, hasSubject: bool, env: Env): nat {
    EarlyFailures(row, env) + LateFailures(row, hasSubject, env)
  }

  function Failed(rows: seq<NullRow>, hasSubject: bool, env: Env): nat {
    if rows == [] then 0
    else Failed(rows[..|rows| - 1], hasSubject, env) + Failures(rows[|rows| - 1], hasSubject, env)
  }

  function Tokens(rows: seq<NullRow>, hasSubject: bool, env: Env): nat {
    if rows == [] then 0
    else
      var row := rows[|rows| - 1];
      Tokens(rows[..|rows| - 1], hasSubject, env) + if IsProcessed(row, hasSubject, env) then row.tokens else 0
  }

  function Tally(rows: seq<NullRow>, hasSubject: bool, env: Env): Result {
    Result(Processed(rows, hasSubject, env), Failed(rows, hasSubject, env), Tokens(rows, hasSubject, env))
  }

  /** A partial-column update of one record. */
  function Patch(r: Rec, primary: Option<Vec>, subject: Option<Vec>): Rec {
    r.(vector := if primary.Some? then primary else r.vector,
       subjectVector := if subject.Some? then subject else r.subjectVector)
  }

  function UpdateWhere(table: seq<Rec>, id: string, primary: Option<Vec>, subject: Option<Vec>): seq<Rec> {
    seq(|table|, i requires 0 <= i < |table| =>
      if table[i].id == id then Patch(table[i], primary, subject) else table[i])
  }

  function WriteRow(table: seq<Rec>, row: NullRow, env: Env): seq<Rec> {
    if Writes(row, env) then UpdateWhere(table, row.id, PrimaryOf(row, env), SubjectOf(row, env)) else table
  }

  function WriteRows(table: seq<Rec>, rows: seq<NullRow>, env: Env): seq<Rec> {
    if rows == [] then table
    else WriteRow(WriteRows(table, rows[..|rows| - 1], env), rows[|rows| - 1], env)
  }

  /** What a row's turn does to its record, column by column: each side the row needs holds the
      embedding of that side's own text if there is one and the write goes through; everything
      else is as before. */
  ghost predicate Lands(was: Rec, now: Rec, row: NullRow, env: Env) {
    && now == was.(vector := now.vector, subjectVector := now.subjectVector)
    && now.vector ==
         (if row.needsPrimary && env.writable(row.id) && env.embed(row.text).Some?
          then env.embed(row.text) else was.vector)
    && now.subjectVector ==
         (if row.needsSubject && row.subjectText.Some? && env.writable(row.id) && env.embed(row.subjectText.value).Some?
          then env.embed(row.subjectText.value) else was.subjectVector)
  }

  ghost predicate NamesNone(rows: seq<NullRow>, id: string) {
    forall k :: 0 <= k < |rows| ==> rows[k].id != id
  }

  /** Writing rows with distinct ids does to each record exactly what its own row says, and
      nothing to the records no row names. */
  lemma {:induction false} EachRowLands(table: seq<Rec>, rows: seq<NullRow>, env: Env)
    requires DistinctRows(rows)
    ensures |WriteRows(table, rows, env)| == |table|
    ensures forall i :: 0 <= i < |table| && NamesNone(rows, table[i].id) ==> WriteRows(table, rows, env)[i] == table[i]
    ensures forall i, k :: 0 <= i < |table| && 0 <= k < |rows| && rows[k].id == table[i].id ==>
      Lands(table[i], WriteRows(table, rows, env)[i], rows[k], env)
  {
    if rows != [] {
      var front, row := rows[..|rows| - 1], rows[|rows| - 1];
      var before, after := WriteRows(table, front, env), WriteRows(table, rows, env);
      EachRowLands(table, front, env);
      forall i | 0 <= i < |table| && row.id == table[i].id ensures NamesNone(front, table[i].id) {}
      forall i | 0 <= i < |table| && NamesNone(rows, table[i].id) ensures after[i] == table[i] {
        assert row.id != table[i].id;
        assert NamesNone(front, table[i].id);
      }
      forall i, k | 0 <= i < |table| && 0 <= k < |rows| && rows[k].id == table[i].id
        ensures Lands(table[i], after[i], rows[k], env)
      {
        if k < |front| {
          assert front[k] == rows[k];
          assert row.id != table[i].id;
          assert before[i].id == table[i].id;
        } else {
          assert before[i] == table[i];
        }
      }
    }
  }

  // ── The batched pass ────────────────────────────────────────────────────

  ghost predicate DistinctRows(rows: seq<NullRow>) {
    forall i, j :: 0 <= i < j < |rows| ==> rows[i].id != rows[j].id
  }

  /** A batch request: one poison text, or an outage, fails the whole request; when it
      succeeds it agrees with the single-text endpoint. */
  function EmbedAll(texts: seq<string>, down: bool, env: Env): (r: Option<seq<Vec>>)
    ensures r.Some? ==> |r.value| == |texts| && forall i :: 0 <= i < |texts| ==> env.embed(texts[i]) == Some(r.value[i])
  {
    if down then None
    else if texts == [] then Some([])
    else
      var head := env.embed(texts[0]);
      var rest := EmbedAll(texts[1..], down, env);
      if head.None? || rest.None? then None else Some([head.value] + rest.value)
  }

  function TextsOf(rows: seq<NullRow>): seq<string> {
    seq(|rows|, i requires 0 <= i < |rows| => rows[i].text)
  }

  method EmbedPrimaryBatch(batch: seq<NullRow>, down: bool, env: Env) returns (r: seq<Option<Vec>>)
    ensures |r| == |batch|
    ensures forall i :: 0 <= i < |batch| ==> r[i] == env.embed(batch[i].text)
  {
    var vectors := EmbedAll(TextsOf(batch), down, env);
    if vectors.Some? {
      assert forall i :: 0 <= i < |batch| ==> TextsOf(batch)[i] == batch[i].text;
      return seq(|batch|, i requires 0 <= i < |batch| => Some(vectors.value[i]));
    }
    r := [];
    for i := 0 to |batch|
      invariant |r| == i
      invariant forall j :: 0 <= j < i ==> r[j] == env.embed(batch[j].text)
    {
      r := r + [env.embed(batch[i].text)];
    }
  }

  function WithSubject(batch: seq<NullRow>): (r: seq<NullRow>)
    ensures forall k :: 0 <= k < |r| ==> r[k].subjectText.Some?
  {
    if batch == [] then []
    else
      var rest := WithSubject(batch[..|batch| - 1]);
      if batch[|batch| - 1].subjectText.Some? then rest + [batch[|batch| - 1]] else rest
  }

  function SubjectTexts(rows: seq<NullRow>): seq<string>
    requires forall k :: 0 <= k < |rows| ==> rows[k].subjectText.Some?
  {
    seq(|rows|, i requires 0 <= i < |rows| => rows[i].subjectText.value)
  }

  function Lookup(m: map<string, Vec>, id: string): Option<Vec> {
    if id in m then Some(m[id]) else None
  }

  function EmbedSubject(row: NullRow, env: Env): Option<Vec> {
    if row.subjectText.Some? then env.embed(row.subjectText.value) else None
  }

  /** The id-to-vector map the rows' subjects amount to, embedded one by one. */
  function SubjectMap(rows: seq<NullRow>, env: Env): map<string, Vec> {
    if rows == [] then map[]
    else
      var rest := SubjectMap(rows[..|rows| - 1], env);
      var row := rows[|rows| - 1];
      var vec := EmbedSubject(row, env);
      if vec.Some? then rest[row.id := vec.value] else rest
  }

  lemma {:induction false} SubjectMapSkips(batch: seq<NullRow>, env: Env)
    ensures SubjectMap(WithSubject(batch), env) == SubjectMap(batch, env)
  {
    if batch != [] {
      var front := batch[..|batch| - 1];
      SubjectMapSkips(front, env);
      if batch[|batch| - 1].subjectText.Some? {
        var r := WithSubject(batch);
        assert r[..|r| - 1] == WithSubject(front);
      }
    }
  }

  /** With distinct ids each row finds its own vector in the map, and nobody else's. */
  lemma {:induction false} SubjectMapAt(rows: seq<NullRow>, env: Env)
    requires DistinctRows(rows)
    ensures forall k :: 0 <= k < |rows| ==> Lookup(SubjectMap(rows, env), rows[k].id) == EmbedSubject(rows[k], env)
    ensures forall id :: id in SubjectMap(rows, env) ==> exists k :: 0 <= k < |rows| && rows[k].id == id
  {
    if rows != [] {
      var n := |rows| - 1;
      var front := rows[..n];
      SubjectMapAt(front, env);
      forall k | 0 <= k < |rows| ensures Lookup(SubjectMap(rows, env), rows[k].id) == EmbedSubject(rows[k], env) {
        if k < n { assert front[k] == rows[k]; }
      }
      forall id | id in SubjectMap(rows, env) ensures exists k :: 0 <= k < |rows| && rows[k].id == id {
        if id in SubjectMap(front, env) {
          var k :| 0 <= k < n && front[k].id == id;
          assert rows[k].id == id;
        } else {
          assert rows[n].id == id;
        }
      }
    }
  }

  method EmbedSubjectBatch(batch: seq<NullRow>, down: bool, env: Env) returns (m: map<string, Vec>)
    ensures m == SubjectMap(batch, env)
  {
    SubjectMapSkips(batch, env);
    var rows := WithSubject(batch);
    m := map[];
    if rows == [] {
      return;
    }
    var vectors := EmbedAll(SubjectTexts(rows), down, env);
    if vectors.Some? {
      for k := 0 to |rows|
        invariant m == SubjectMap(rows[..k], env)
      {
        assert rows[..k + 1][..k] == rows[..k];
        assert env.embed(SubjectTexts(rows)[k]) == Some(vectors.value[k]);
        m := m[rows[k].id := vectors.value[k]];
      }
    } else {
      for k := 0 to |rows|
        invariant m == SubjectMap(rows[..k], env)
      {
        assert rows[..k + 1][..k] == rows[..k];
        var vec := env.embed(rows[k].subjectText.value);
        if vec.Some? {
          m := m[rows[k].id := vec.value];
        }
      }
    }
    assert rows[..|rows|] == rows;
  }

  class Table {
    var rows: seq<Rec>

    constructor (rows: seq<Rec>)
      ensures this.rows == rows
    {
      this.rows := rows;
    }

    /** `repo.update(updates, where id = ...)`; `ok` false is a write that raised. */
    method Update(id: string, primary: Option<Vec>, subject: Option<Vec>, goes: bool) returns (ok: bool)
      modifies this
      ensures ok == goes
      ensures rows == if goes then UpdateWhere(old(rows), id, primary, subject) else old(rows)
    {
      if goes {
        rows := UpdateWhere(rows, id, primary, subject);
      }
      ok := goes;
    }
  }

  function NeedPrimary(batch: seq<NullRow>): seq<NullRow> {
    if batch == [] then []
    else
      var rest := NeedPrimary(batch[..|batch| - 1]);
      if batch[|batch| - 1].needsPrimary then rest + [batch[|batch| - 1]] else rest
  }

  function NeedSubject(batch: seq<NullRow>): seq<NullRow> {
    if batch == [] then []
    else
      var row := batch[|batch| - 1];
      var rest := NeedSubject(batch[..|batch| - 1]);
      if row.needsSubject && row.subjectText.Some? then rest + [row] else rest
  }

  function PrimaryMap(rows: seq<NullRow>, env: Env): map<string, Vec> {
    if rows == [] then map[]
    else
      var rest := PrimaryMap(rows[..|rows| - 1], env);
      var row := rows[|rows| - 1];
      var vec := env.embed(row.text);
      if vec.Some? then rest[row.id := vec.value] else rest
  }

  function Poisoned(rows: seq<NullRow>, env: Env): nat {
    if rows == [] then 0
    else Poisoned(rows[..|rows| - 1], env) + if env.embed(rows[|rows| - 1].text).None? then 1 else 0
  }

  /** The primary map of the rows that need it answers, for any row, what embedding that
      row alone would; the poison count is the early charges of the batch. */
  lemma {:induction false} PrimarySide(batch: seq<NullRow>, env: Env)
    requires DistinctRows(batch)
    ensures forall k :: 0 <= k < |batch| ==>
      Lookup(PrimaryMap(NeedPrimary(batch), env), batch[k].id) == PrimaryOf(batch[k], env)
    ensures forall id :: id in PrimaryMap(NeedPrimary(batch), env) ==> exists k :: 0 <= k < |batch| && batch[k].id == id
    ensures Poisoned(NeedPrimary(batch), env) == Early(batch, env)
  {
    if batch != [] {
      var n := |batch| - 1;
      var front, row := batch[..n], batch[n];
      PrimarySide(front, env);
      var rows := NeedPrimary(batch);
      if row.needsPrimary {
        assert rows[..|rows| - 1] == NeedPrimary(front);
      }
      var before, after := PrimaryMap(NeedPrimary(front), env), PrimaryMap(rows, env);
      assert after == if PrimaryOf(row, env).Some? then before[row.id := PrimaryOf(row, env).value] else before;
      forall k | 0 <= k < |batch| ensures Lookup(after, batch[k].id) == PrimaryOf(batch[k], env) {
        if k < n { assert front[k] == batch[k]; }
      }
      forall id | id in after ensures exists k :: 0 <= k < |batch| && batch[k].id == id {
        if id in before {
          var k :| 0 <= k < n && front[k].id == id;
          assert batch[k].id == id;
        } else {
          assert batch[n].id == id;
        }
      }
    }
  }

  lemma {:induction false} SubjectSide(batch: seq<NullRow>, env: Env)
    requires DistinctRows(batch)
    ensures forall k :: 0 <= k < |batch| ==>
      Lookup(SubjectMap(NeedSubject(batch), env), batch[k].id) == SubjectOf(batch[k], env)
    ensures forall id :: id in SubjectMap(NeedSubject(batch), env) ==> exists k :: 0 <= k < |batch| && batch[k].id == id
  {
    if batch != [] {
      var n := |batch| - 1;
      var front, row := batch[..n], batch[n];
      SubjectSide(front, env);
      var rows := NeedSubject(batch);
      if row.needsSubject && row.subjectText.Some? {
        assert rows[..|rows| - 1] == NeedSubject(front);
      }
      var before, after := SubjectMap(NeedSubject(front), env), SubjectMap(rows, env);
      assert after == if SubjectOf(row, env).Some? then before[row.id := SubjectOf(row, env).value] else before;
      forall k | 0 <= k < |batch| ensures Lookup(after, batch[k].id) == SubjectOf(batch[k], env) {
        if k < n { assert front[k] == batch[k]; }
      }
      forall id | id in after ensures exists k :: 0 <= k < |batch| && batch[k].id == id {
        if id in before {
          var k :| 0 <= k < n && front[k].id == id;
          assert batch[k].id == id;
        } else {
          assert batch[n].id == id;
        }
      }
    }
  }

  function Early(rows: seq<NullRow>, env: Env): nat {
    if rows == [] then 0 else Early(rows[..|rows| - 1], env) + EarlyFailures(rows[|rows| - 1], env)
  }

  function Late(rows: seq<NullRow>, hasSubject: bool, env: Env): nat {
    if rows == [] then 0
    else Late(rows[..|rows| - 1], hasSubject, env) + LateFailures(rows[|rows| - 1], hasSubject, env)
  }

  lemma {:induction false} FailedSplits(rows: seq<NullRow>, hasSubject: bool, env: Env)
    ensures Failed(rows, hasSubject, env) == Early(rows, env) + Late(rows, hasSubject, env)
  {
    if rows != [] {
      FailedSplits(rows[..|rows| - 1], hasSubject, env);
    }
  }

  lemma {:induction false} TallyAppend(a: seq<NullRow>, b: seq<NullRow>, hasSubject: bool, env: Env)
    ensures Processed(a + b, hasSubject, env) == Processed(a, hasSubject, env) + Processed(b, hasSubject, env)
    ensures Failed(a + b, hasSubject, env) == Failed(a, hasSubject, env) + Failed(b, hasSubject, env)
    ensures Tokens(a + b, hasSubject, env) == Tokens(a, hasSubject, env) + Tokens(b, hasSubject, env)
    decreases |b|
  {
    if b == [] {
      assert a + b == a;
    } else {
      var front := b[..|b| - 1];
      TallyAppend(a, front, hasSubject, env);
      var ab := a + b;
      assert ab[..|ab| - 1] == a + front && ab[|ab| - 1] == b[|b| - 1];
    }
  }

  lemma {:induction false} WriteRowsAppend(table: seq<Rec>, a: seq<NullRow>, b: seq<NullRow>, env: Env)
    ensures WriteRows(table, a + b, env) == WriteRows(WriteRows(table, a, env), b, env)
  {
    if b == [] {
      assert a + b == a;
    } else {
      WriteRowsAppend(table, a, b[..|b| - 1], env);
      assert (a + b)[..|a + b| - 1] == a + b[..|b| - 1];
    }
  }

  method CollectPrimary(rows: seq<NullRow>, vectors: seq<Option<Vec>>, env: Env)
    returns (m: map<string, Vec>, poisoned: nat)
    requires |vectors| == |rows| && forall i :: 0 <= i < |rows| ==> vectors[i] == env.embed(rows[i].text)
    ensures m == PrimaryMap(rows, env) && poisoned == Poisoned(rows, env)
  {
    m, poisoned := map[], 0;
    for i := 0 to |rows|
      invariant m == PrimaryMap(rows[..i], env) && poisoned == Poisoned(rows[..i], env)
    {
      assert rows[..i + 1][..i] == rows[..i];
      if vectors[i].None? {
        poisoned := poisoned + 1;
      } else {
        m := m[rows[i].id := vectors[i].value];
      }
    }
    assert rows[..|rows|] == rows;
  }

  /** The write loop over one batch, given the two sides' maps. */
  method WriteBatch(table: Table, batch: seq<NullRow>, primary: map<string, Vec>, subject: map<string, Vec>,
                    hasSubject: bool, env: Env)
    returns (res: Result)
    requires forall k :: 0 <= k < |batch| ==> Lookup(primary, batch[k].id) == PrimaryOf(batch[k], env)
    requires forall k :: 0 <= k < |batch| ==> Lookup(subject, batch[k].id) == SubjectOf(batch[k], env)
    modifies table
    ensures table.rows == WriteRows(old(table.rows), batch, env)
    ensures res == Result(Processed(batch, hasSubject, env), Late(batch, hasSubject, env), Tokens(batch, hasSubject, env))
  {
    res := Result(0, 0, 0);
    for i := 0 to |batch|
      invariant table.rows == WriteRows(old(table.rows), batch[..i], env)
      invariant res.processed == Processed(batch[..i], hasSubject, env)
      invariant res.failed == Late(batch[..i], hasSubject, env)
      invariant res.tokens == Tokens(batch[..i], hasSubject, env)
    {
      assert batch[..i + 1][..i] == batch[..i];
      var row := batch[i];
      var p, s := Lookup(primary, row.id), Lookup(subject, row.id);
      if p.None? && s.None? {
        continue;
      }
      var sideGap := (row.needsPrimary && p.None?)
                  || (hasSubject && row.needsSubject && row.subjectText.Some? && s.None?);
      var ok := table.Update(row.id, p, s, env.writable(row.id));
      if !ok {
        res := res.(failed := res.failed + 1);
        continue;
      }
      if sideGap {
        res := res.(failed := res.failed + 1);
        continue;
      }
      res := res.(processed := res.processed + 1, tokens := res.tokens + row.tokens);
    }
    assert batch[..|batch|] == batch;
  }

  method BackfillBatch(table: Table, batch: seq<NullRow>, start: nat, hasSubject: bool, env: Env)
    returns (res: Result)
    requires DistinctRows(batch)
    modifies table
    ensures table.rows == WriteRows(old(table.rows), batch, env)
    ensures res == Tally(batch, hasSubject, env)
  {
    var primaryRows, subjectRows := NeedPrimary(batch), NeedSubject(batch);
    PrimarySide(batch, env);
    SubjectSide(batch, env);
    FailedSplits(batch, hasSubject, env);
    if primaryRows == [] && subjectRows == [] {
      IdleBatch(table.rows, batch, hasSubject, env);
      return Result(0, 0, 0);
    }
    var vectors: seq<Option<Vec>> := [];
    if primaryRows != [] {
      vectors := EmbedPrimaryBatch(primaryRows, env.outage(start, true), env);
    }
    var subject: map<string, Vec> := map[];
    if subjectRows != [] {
      subject := EmbedSubjectBatch(subjectRows, env.outage(start, false), env);
    }
    var primary, poisoned := CollectPrimary(primaryRows, vectors, env);
    res := WriteBatch(table, batch, primary, subject, hasSubject, env);
    res := res.(failed := res.failed + poisoned);
  }

  lemma {:induction false} IdleBatch(table: seq<Rec>, batch: seq<NullRow>, hasSubject: bool, env: Env)
    requires NeedPrimary(batch) == [] && NeedSubject(batch) == []
    ensures WriteRows(table, batch, env) == table && Tally(batch, hasSubject, env) == Result(0, 0, 0)
  {
    if batch != [] {
      IdleBatch(table, batch[..|batch| - 1], hasSubject, env);
    }
  }

  lemma {:induction false} ChunkStep(table: seq<Rec>, rows: seq<NullRow>, start: nat, stop: nat, hasSubject: bool, env: Env)
    requires start <= stop <= |rows|
    ensures WriteRows(table, rows[..stop], env) == WriteRows(WriteRows(table, rows[..start], env), rows[start..stop], env)
    ensures Processed(rows[..stop], hasSubject, env)
         == Processed(rows[..start], hasSubject, env) + Processed(rows[start..stop], hasSubject, env)
    ensures Failed(rows[..stop], hasSubject, env)
         == Failed(rows[..start], hasSubject, env) + Failed(rows[start..stop], hasSubject, env)
    ensures Tokens(rows[..stop], hasSubject, env)
         == Tokens(rows[..start], hasSubject, env) + Tokens(rows[start..stop], hasSubject, env)
  {
    assert rows[..start] + rows[start..stop] == rows[..stop];
    TallyAppend(rows[..start], rows[start..stop], hasSubject, env);
    WriteRowsAppend(table, rows[..start], rows[start..stop], env);
  }

  /** The source fixes the batch size at 32. Whatever the size, and whichever batch
      requests fail, the table and the counters are those of one row at a time. */
  method BackfillTable(table: Table, rows: seq<NullRow>, hasSubject: bool, env: Env, batchSize: nat)
    returns (res: Result)
    requires batchSize >= 1 && DistinctRows(rows)
    modifies table
    ensures table.rows == WriteRows(old(table.rows), rows, env)
    ensures |table.rows| == |old(table.rows)|
    ensures forall i :: 0 <= i < |table.rows| && NamesNone(rows, old(table.rows)[i].id) ==>
      table.rows[i] == old(table.rows)[i]
    ensures forall i, k :: 0 <= i < |table.rows| && 0 <= k < |rows| && rows[k].id == old(table.rows)[i].id ==>
      Lands(old(table.rows)[i], table.rows[i], rows[k], env)
    ensures res == Tally(rows, hasSubject, env)
  {
    EachRowLands(table.rows, rows, env);
    var processed, failed, tokens := 0, 0, 0;
    var start := 0;
    while start < |rows|
      invariant 0 <= start <= |rows|
      invariant table.rows == WriteRows(old(table.rows), rows[..start], env)
      invariant processed == Processed(rows[..start], hasSubject, env)
      invariant failed == Failed(rows[..start], hasSubject, env)
      invariant tokens == Tokens(rows[..start], hasSubject, env)
    {
      var stop := if start + batchSize < |rows| then start + batchSize else |rows|;
      ChunkStep(old(table.rows), rows, start, stop, hasSubject, env);
      var one := BackfillBatch(table, rows[start..stop], start, hasSubject, env);
      processed, failed, tokens := processed + one.processed, failed + one.failed, tokens + one.tokens;
      start := stop;
    }
    assert rows[..start] == rows;
    res := Result(processed, failed, tokens);
  }
}
