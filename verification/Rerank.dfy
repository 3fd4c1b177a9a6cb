/** Chunked reranking: documents are scored in chunks, merged and sorted. */
module Rerank {
  import opened Common

  datatype Result<+T> = Ok(value: T) | Err

  /** The `scores` field of a reply: absent or not a list, a list of rows, or a flat list. */
  datatype Body = NoList | Rows(rows: seq<seq<real>>) | Flat(row: seq<real>)

  function ExtractScores(body: Body, expected: nat): (r: Result<seq<real>>)
    ensures r.Ok? ==> |r.value| == expected
  {
    match body
    case NoList => Err
    case Rows(rows) =>
      // An empty outer list is a row without scores.
      var row := if rows != [] then rows[0] else [];
      if |row| == expected then Ok(row) else Err
    case Flat(row) => if |row| == expected then Ok(row) else Err
  }

  /** A nested row and a flat one are read alike and later rows are ignored; either is usable
      for exactly one number of documents, its own length. */
  lemma ScoreShapesAgree(row: seq<real>, more: seq<seq<real>>)
    ensures forall n :: ExtractScores(Rows([row] + more), n) == ExtractScores(Flat(row), n)
    ensures forall n :: ExtractScores(Flat(row), n).Ok? <==> n == |row|
    ensures forall n :: ExtractScores(Flat(row), n).Ok? ==> ExtractScores(Flat(row), n).value == row
  {
  }

  datatype Scored = Scored(index: nat, score: real)

  /** Higher scores first; equal scores in input order. */
  predicate Ahead(a: Scored, b: Scored) {
    a.score > b.score || (a.score == b.score && a.index < b.index)
  }

  function Entries(scores: seq<real>, offset: nat): seq<Scored> {
    seq(|scores|, i requires 0 <= i < |scores| => Scored(offset + i, scores[i]))
  }

  /** The ranking of a list of scores: each entry once, in order. */
  ghost predicate IsRanking(r: seq<Scored>, scores: seq<real>) {
    && multiset(r) == multiset(Entries(scores, 0))
    && InOrder(r)
  }

  ghost predicate InOrder(r: seq<Scored>) {
    forall i, j :: 0 <= i < j < |r| ==> Ahead(r[i], r[j])
  }

  // ── The sort ────────────────────────────────────────────────────────────

  /** One step of a stable descending sort: an entry goes before everything that does not
      beat its score. */
  function Insert(x: Scored, sorted: seq<Scored>): seq<Scored> {
    if sorted == [] || x.score >= sorted[0].score then [x] + sorted
    else [sorted[0]] + Insert(x, sorted[1..])
  }

  /** `list.sort(key=score, reverse=True)`, which is stable. */
  function SortDescending(s: seq<Scored>): seq<Scored> {
    if s == [] then [] else Insert(s[0], SortDescending(s[1..]))
  }

  lemma {:induction false} InsertKeeps(x: Scored, sorted: seq<Scored>)
    ensures multiset(Insert(x, sorted)) == multiset{x} + multiset(sorted)
  {
    if sorted != [] && x.score < sorted[0].score {
      InsertKeeps(x, sorted[1..]);
      assert sorted == [sorted[0]] + sorted[1..];
    }
  }

  lemma {:induction false} InsertOrdered(x: Scored, sorted: seq<Scored>)
    requires InOrder(sorted) && forall k :: 0 <= k < |sorted| ==> x.index < sorted[k].index
    ensures InOrder(Insert(x, sorted))
  {
    if sorted != [] && x.score < sorted[0].score {
      var rest := Insert(x, sorted[1..]);
      InsertOrdered(x, sorted[1..]);
      InsertKeeps(x, sorted[1..]);
      forall k | 0 <= k < |rest| ensures Ahead(sorted[0], rest[k]) {
        assert rest[k] in multiset(rest);
        assert rest[k] == x || rest[k] in sorted[1..];
      }
    }
  }

  lemma {:induction false} SortKeeps(s: seq<Scored>)
    ensures multiset(SortDescending(s)) == multiset(s)
  {
    if s != [] {
      SortKeeps(s[1..]);
      InsertKeeps(s[0], SortDescending(s[1..]));
      assert s == [s[0]] + s[1..];
    }
  }

  lemma {:induction false} SortOrders(s: seq<Scored>)
    requires forall i, j :: 0 <= i < j < |s| ==> s[i].index < s[j].index
    ensures InOrder(SortDescending(s))
  {
    if s != [] {
      var rest := SortDescending(s[1..]);
      SortOrders(s[1..]);
      SortKeeps(s[1..]);
      forall k | 0 <= k < |rest| ensures s[0].index < rest[k].index {
        assert rest[k] in multiset(rest);
        assert rest[k] in s[1..];
      }
      InsertOrdered(s[0], rest);
    }
  }

  lemma {:induction false} SameHead(a: seq<Scored>, b: seq<Scored>)
    requires InOrder(a) && InOrder(b) && multiset(a) == multiset(b) && a != [] && b != []
    ensures a[0] == b[0]
  {
    assert a[0] in multiset(b) && b[0] in multiset(a);
    var i :| 0 <= i < |b| && b[i] == a[0];
    var j :| 0 <= j < |a| && a[j] == b[0];
  }

  lemma {:induction false} WithoutHead(a: seq<Scored>)
    requires a != [] && InOrder(a)
    ensures multiset(a[1..]) == multiset(a) - multiset{a[0]} && InOrder(a[1..])
  {
    assert a == [a[0]] + a[1..];
  }

  /** A list of scores has one ranking. */
  lemma {:induction false} RankingUnique(a: seq<Scored>, b: seq<Scored>)
    requires InOrder(a) && InOrder(b) && multiset(a) == multiset(b)
    ensures a == b
    decreases |a|
  {
    assert |multiset(a)| == |multiset(b)|;
    if a != [] {
      SameHead(a, b);
      WithoutHead(a);
      WithoutHead(b);
      RankingUnique(a[1..], b[1..]);
    }
  }

  /** Every document appears once, with its own score. */
  lemma {:induction false} RankingCovers(r: seq<Scored>, scores: seq<real>)
    requires IsRanking(r, scores)
    ensures |r| == |scores|
    ensures forall k :: 0 <= k < |r| ==> r[k].index < |scores| && r[k].score == scores[r[k].index]
    ensures forall i :: 0 <= i < |scores| ==> exists k :: 0 <= k < |r| && r[k] == Scored(i, scores[i])
    ensures forall j, k :: 0 <= j < k < |r| ==> r[j].index != r[k].index
  {
    var es := Entries(scores, 0);
    assert |multiset(r)| == |multiset(es)|;
    forall k | 0 <= k < |r| ensures r[k].index < |scores| && r[k].score == scores[r[k].index] {
      assert r[k] in multiset(es);
    }
    forall i | 0 <= i < |scores| ensures exists k :: 0 <= k < |r| && r[k] == Scored(i, scores[i]) {
      assert es[i] in multiset(r);
    }
  }

  // ── Chunks ──────────────────────────────────────────────────────────────

  datatype Chunk = Chunk(offset: nat, docs: seq<string>)

  /** The chunks from an offset on. */
  function Chunks(docs: seq<string>, offset: nat, size: nat): seq<Chunk>
    requires size >= 1
    decreases |docs| - offset
  {
    if offset >= |docs| then []
    else [Chunk(offset, docs[offset..Min(offset + size, |docs|)])] + Chunks(docs, offset + size, size)
  }

  /** The reranking service: one reply for each list of documents. */
  type Service = seq<string> -> Body

  /** The service scores each document by itself. */
  ghost predicate Pointwise(service: Service, score: string -> real) {
    forall docs :: docs != [] ==> ExtractScores(service(docs), |docs|) == Ok(ScoreEach(docs, score))
  }

  function ScoreEach(docs: seq<string>, score: string -> real): seq<real> {
    seq(|docs|, i requires 0 <= i < |docs| => score(docs[i]))
  }

  function ScoreChunk(service: Service, c: Chunk): Result<seq<real>> {
    ExtractScores(service(c.docs), |c.docs|)
  }

  /** What the merge loop adds for one chunk. */
  function Contribution(service: Service, c: Chunk): seq<Scored> {
    var scores := ScoreChunk(service, c);
    if scores.Ok? then Entries(scores.value, c.offset) else []
  }

  function Merged(service: Service, chunks: seq<Chunk>): seq<Scored> {
    if chunks == [] then [] else Contribution(service, chunks[0]) + Merged(service, chunks[1..])
  }

  predicate AllAnswered(service: Service, chunks: seq<Chunk>) {
    forall k :: 0 <= k < |chunks| ==> ScoreChunk(service, chunks[k]).Ok?
  }

  method MakeChunks(docs: seq<string>, batchSize: nat) returns (chunks: seq<Chunk>)
    requires batchSize >= 1
    ensures chunks == Chunks(docs, 0, batchSize)
  {
    chunks := [];
    var offset := 0;
    while offset < |docs|
      invariant Chunks(docs, 0, batchSize) == chunks + Chunks(docs, offset, batchSize)
      decreases |docs| - offset
    {
      var c := Chunk(offset, docs[offset..Min(offset + batchSize, |docs|)]);
      AppendAssociates(chunks, [c], Chunks(docs, offset + batchSize, batchSize));
      chunks := chunks + [c];
      offset := offset + batchSize;
    }
  }

  /** Chunked reranking. The request fails as a whole when any chunk's reply is unusable. */
  method Rerank(docs: seq<string>, batchSize: nat, service: Service) returns (r: Result<seq<Scored>>)
    requires batchSize >= 1
    ensures r.Ok? <==> AllAnswered(service, Chunks(docs, 0, batchSize))
    ensures r.Ok? ==> r.value == SortDescending(Merged(service, Chunks(docs, 0, batchSize)))
  {
    if docs == [] { return Ok([]); }
    var chunks := MakeChunks(docs, batchSize);
    var scored: seq<Scored> := [];
    for k := 0 to |chunks|
      invariant forall j :: 0 <= j < k ==> ScoreChunk(service, chunks[j]).Ok?
      invariant scored + Merged(service, chunks[k..]) == Merged(service, chunks)
    {
      var scores := ScoreChunk(service, chunks[k]);
      if scores.Err? { return Err; }
      assert chunks[k..][1..] == chunks[k + 1..];
      AppendAssociates(scored, Contribution(service, chunks[k]), Merged(service, chunks[k + 1..]));
      scored := scored + Entries(scores.value, chunks[k].offset);
    }
    assert scored + [] == scored;
    r := Ok(SortDescending(scored));
  }

  lemma {:induction false} EntriesOfSlice(docs: seq<string>, score: string -> real, from: nat, to: nat)
    requires from <= to <= |docs|
    ensures Entries(ScoreEach(docs[from..to], score), from) == Entries(ScoreEach(docs, score), 0)[from..to]
  {
    var part, all := Entries(ScoreEach(docs[from..to], score), from), Entries(ScoreEach(docs, score), 0);
    forall i | 0 <= i < to - from ensures part[i] == all[from + i] {
      assert docs[from..to][i] == docs[from + i];
    }
  }

  lemma {:induction false} PointwiseChunk(service: Service, score: string -> real, c: Chunk)
    requires Pointwise(service, score) && c.docs != []
    ensures ScoreChunk(service, c) == Ok(ScoreEach(c.docs, score))
    ensures Contribution(service, c) == Entries(ScoreEach(c.docs, score), c.offset)
  {
  }

  lemma {:induction false} ChunkContributes(service: Service, score: string -> real, docs: seq<string>,
                                            from: nat, to: nat, all: seq<Scored>)
    requires Pointwise(service, score) && from < to <= |docs| && all == Entries(ScoreEach(docs, score), 0)
    ensures |all| == |docs| && Contribution(service, Chunk(from, docs[from..to])) == all[from..to]
  {
    PointwiseChunk(service, score, Chunk(from, docs[from..to]));
    EntriesOfSlice(docs, score, from, to);
  }

  lemma {:induction false} CutAndJoin<T>(all: seq<T>, from: nat, to: nat)
    requires from <= to <= |all|
    ensures all[from..to] + all[to..] == all[from..]
  {
  }

  /** Any stretch of documents, sent as one chunk, contributes its own stretch of `all`. */
  ghost predicate Serves(service: Service, docs: seq<string>, all: seq<Scored>) {
    && |all| == |docs|
    && forall from, to :: 0 <= from < to <= |docs| ==>
      Contribution(service, Chunk(from, docs[from..to])) == all[from..to]
  }

  /** The merge is the list of all scores, whatever the chunks. */
  lemma {:induction false} MergedIsEveryScore(docs: seq<string>, offset: nat, size: nat, service: Service, all: seq<Scored>)
    requires size >= 1 && Serves(service, docs, all)
    ensures Merged(service, Chunks(docs, offset, size)) == all[Min(offset, |docs|)..]
    decreases |docs| - offset
  {
    if offset < |docs| {
      var stop, chunks := Min(offset + size, |docs|), Chunks(docs, offset, size);
      MergedIsEveryScore(docs, offset + size, size, service, all);
      CutAndJoin(all, offset, stop);
      assert chunks == [Chunk(offset, docs[offset..stop])] + Chunks(docs, offset + size, size);
      assert chunks[1..] == Chunks(docs, offset + size, size);
    }
  }

  lemma {:induction false} ChunksNonEmpty(docs: seq<string>, offset: nat, size: nat)
    requires size >= 1
    ensures forall k :: 0 <= k < |Chunks(docs, offset, size)| ==> Chunks(docs, offset, size)[k].docs != []
    decreases |docs| - offset
  {
    if offset < |docs| { ChunksNonEmpty(docs, offset + size, size); }
  }

  lemma {:induction false} PointwiseAnswers(docs: seq<string>, size: nat, service: Service, score: string -> real)
    requires size >= 1 && Pointwise(service, score)
    ensures AllAnswered(service, Chunks(docs, 0, size))
  {
    var chunks := Chunks(docs, 0, size);
    ChunksNonEmpty(docs, 0, size);
    forall k | 0 <= k < |chunks| ensures ScoreChunk(service, chunks[k]).Ok? {
      PointwiseChunk(service, score, chunks[k]);
    }
  }

  /** Chunking refines a single request: for every batch size the reply is usable, and the
      result is the one ranking of all the scores. */
  lemma {:induction false} ChunkedIsRanking(docs: seq<string>, size: nat, service: Service, score: string -> real)
    requires size >= 1 && Pointwise(service, score)
    ensures AllAnswered(service, Chunks(docs, 0, size))
    ensures IsRanking(SortDescending(Merged(service, Chunks(docs, 0, size))), ScoreEach(docs, score))
  {
    PointwiseAnswers(docs, size, service, score);
    var all := Entries(ScoreEach(docs, score), 0);
    forall from, to | 0 <= from < to <= |docs|
      ensures Contribution(service, Chunk(from, docs[from..to])) == all[from..to]
    {
      ChunkContributes(service, score, docs, from, to, all);
    }
    MergedIsEveryScore(docs, 0, size, service, all);
    assert all[0..] == all;
    SortKeeps(all);
    SortOrders(all);
  }

  /** The batch size does not show: in particular one chunk for all documents gives the same. */
  lemma {:induction false} BatchSizeDoesNotShow(docs: seq<string>, size: nat, size': nat, service: Service, score: string -> real)
    requires size >= 1 && size' >= 1 && Pointwise(service, score)
    ensures SortDescending(Merged(service, Chunks(docs, 0, size))) == SortDescending(Merged(service, Chunks(docs, 0, size')))
    ensures size' >= |docs| > 0 ==> Chunks(docs, 0, size') == [Chunk(0, docs)]
  {
    ChunkedIsRanking(docs, size, service, score);
    ChunkedIsRanking(docs, size', service, score);
    RankingUnique(SortDescending(Merged(service, Chunks(docs, 0, size))),
                  SortDescending(Merged(service, Chunks(docs, 0, size'))));
    assert docs[0..|docs|] == docs;
  }
}
