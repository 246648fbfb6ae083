/** backend/search_engine.py: search_similar_chunks, the ranker behind the
    query handler. It reads every embeddings row, embeds the query, scores
    each row against it, sorts the scored rows by descending score (stable,
    so ties keep scan order) and keeps the first top_k. The query embedding
    and the per-row score are oracles; a failing call is None. */
module SearchEngine {
  import opened Wrappers
  import PyList
  import Db

  /** search_similar_chunks' default top_k. */
  const DefaultTopK: int := 5

  /** A row of `SELECT id, document_id, text_chunk, embedding FROM embeddings`,
      in the order the table scan returns it. */
  datatype ScanRow = ScanRow(id: int, documentId: string, textChunk: string, embedding: Db.Vector)

  /** One entry of `similarities`: (chunk_id, doc_id, text_chunk, score). */
  datatype Hit = Hit(chunkId: int, documentId: string, textChunk: string, score: real)

  /** The sort key, `lambda x: x[3]`. */
  function HitScore(h: Hit): real {
    h.score
  }

  /** The hit a row gives when its score is s. */
  function HitOf(row: ScanRow, s: real): Hit {
    Hit(row.id, row.documentId, row.textChunk, s)
  }

  /** The similarities list the scoring loop builds from rows: one hit per row
      that scores, in scan order; rows whose scoring raises are left out. */
  function Scored(rows: seq<ScanRow>, q: Db.Vector, score: (Db.Vector, Db.Vector) -> Option<real>): seq<Hit> {
    if rows == [] then []
    else
      var last := rows[|rows| - 1];
      Scored(rows[..|rows| - 1], q, score)
      + (match score(q, last.embedding)
         case Some(s) => [HitOf(last, s)]
         case None => [])
  }

  /** The result of search_similar_chunks(query, top_k). `connect` is what
      get_connection met; `table` is what the SELECT returned, None when the
      cursor raised; `embed` is the query-embedding call. */
  function Search(connect: Db.ConnectAttempt, table: Option<seq<ScanRow>>, embed: string -> Option<Db.Vector>,
                  score: (Db.Vector, Db.Vector) -> Option<real>, query: string, topK: int := DefaultTopK): seq<Hit>
  {
    if Db.GetConnection(connect).None? || table.None? || table.value == [] then []
    else
      match embed(query)
      case None => []
      case Some(q) => PyList.SliceTo(PyList.SortDesc(Scored(table.value, q, score), HitScore), topK)
  }

  /** search_similar_chunks: the scoring loop appends to `similarities`, which
      is then sorted in place and sliced. */
  method SearchSimilarChunks(connect: Db.ConnectAttempt, table: Option<seq<ScanRow>>, embed: string -> Option<Db.Vector>,
                             score: (Db.Vector, Db.Vector) -> Option<real>, query: string, topK: int := DefaultTopK)
    returns (hits: seq<Hit>)
    ensures hits == Search(connect, table, embed, score, query, topK)
  {
    var conn := Db.GetConnection(connect);
    if conn.None? {
      return [];
    }
    if table.None? {
      return [];
    }
    var results := table.value;
    if results == [] {
      return [];
    }
    var queryEmbedding := embed(query);
    if queryEmbedding.None? {
      return [];
    }
    var q := queryEmbedding.value;
    var similarities: seq<Hit> := [];
    var i := 0;
    while i < |results|
      invariant i <= |results|
      invariant similarities == Scored(results[..i], q, score)
    {
      var row := results[i];
      assert results[..i + 1][..i] == results[..i];
      var s := score(q, row.embedding);
      if s.Some? {
        similarities := similarities + [HitOf(row, s.value)];
      }
      i := i + 1;
    }
    assert results[..i] == results;
    similarities := PyList.SortDesc(similarities, HitScore);
    hits := PyList.SliceTo(similarities, topK);
  }

  /** A hit is in the similarities list exactly when some row scores and
      gives it. */
  lemma {:induction false} ScoredMembers(rows: seq<ScanRow>, q: Db.Vector, score: (Db.Vector, Db.Vector) -> Option<real>, h: Hit)
    ensures h in Scored(rows, q, score) <==>
            exists i :: 0 <= i < |rows| && score(q, rows[i].embedding) == Some(h.score) && HitOf(rows[i], h.score) == h
    decreases |rows|
  {
    if rows != [] {
      var init := rows[..|rows| - 1];
      var last := rows[|rows| - 1];
      var tail := match score(q, last.embedding) case Some(s) => [HitOf(last, s)] case None => [];
      assert Scored(rows, q, score) == Scored(init, q, score) + tail;
      ScoredMembers(init, q, score, h);
      if h in Scored(init, q, score) {
        var i :| 0 <= i < |init| && score(q, init[i].embedding) == Some(h.score) && HitOf(init[i], h.score) == h;
        assert rows[i] == init[i];
      } else if h in tail {
        assert rows[|rows| - 1] == last;
      } else {
        forall i | 0 <= i < |rows|
          ensures !(score(q, rows[i].embedding) == Some(h.score) && HitOf(rows[i], h.score) == h)
        {
          if i < |init| {
            assert init[i] == rows[i];
          }
        }
      }
    }
  }

  /** The similarities list is the rows that score, each exactly once and in
      scan order: hit m comes from row idx[m], the indices strictly increase,
      and every row that scores has its index in idx. */
  lemma {:induction false} ScoredRows(rows: seq<ScanRow>, q: Db.Vector, score: (Db.Vector, Db.Vector) -> Option<real>)
    returns (idx: seq<nat>)
    ensures |idx| == |Scored(rows, q, score)|
    ensures forall m, n :: 0 <= m < n < |idx| ==> idx[m] < idx[n]
    ensures forall m :: 0 <= m < |idx| ==>
      && idx[m] < |rows|
      && score(q, rows[idx[m]].embedding).Some?
      && Scored(rows, q, score)[m] == HitOf(rows[idx[m]], score(q, rows[idx[m]].embedding).value)
    ensures forall i :: 0 <= i < |rows| && score(q, rows[i].embedding).Some? ==> i in idx
    decreases |rows|
  {
    if rows == [] {
      idx := [];
    } else {
      var init := rows[..|rows| - 1];
      var last := rows[|rows| - 1];
      var before := ScoredRows(init, q, score);
      assert forall i :: 0 <= i < |init| ==> rows[i] == init[i];
      if score(q, last.embedding).Some? {
        var hit := HitOf(last, score(q, last.embedding).value);
        assert Scored(rows, q, score) == Scored(init, q, score) + [hit];
        idx := before + [|rows| - 1];
        assert idx[|idx| - 1] == |rows| - 1;
        assert forall m :: 0 <= m < |before| ==> idx[m] == before[m];
      } else {
        assert Scored(rows, q, score) == Scored(init, q, score);
        idx := before;
      }
    }
  }

  /** When every row scores, the similarities list has one hit per row, in
      scan order. */
  lemma {:induction false} ScoredAll(rows: seq<ScanRow>, q: Db.Vector, score: (Db.Vector, Db.Vector) -> Option<real>)
    requires forall i :: 0 <= i < |rows| ==> score(q, rows[i].embedding).Some?
    ensures |Scored(rows, q, score)| == |rows|
    ensures forall i :: 0 <= i < |rows| ==> Scored(rows, q, score)[i] == HitOf(rows[i], score(q, rows[i].embedding).value)
    decreases |rows|
  {
    if rows != [] {
      ScoredAll(rows[..|rows| - 1], q, score);
    }
  }

  /** The result is ordered by non-increasing score, holds only hits of rows
      that scored, each at most as often as it was scored, and is a prefix of
      the full ranking. */
  lemma SearchRanked(connect: Db.ConnectAttempt, table: Option<seq<ScanRow>>, embed: string -> Option<Db.Vector>,
                     score: (Db.Vector, Db.Vector) -> Option<real>, query: string, topK: int)
    ensures var hits := Search(connect, table, embed, score, query, topK);
      && PyList.SortedDesc(hits, HitScore)
      && (hits != [] ==> table.Some? && embed(query).Some?
                         && hits == PyList.SortDesc(Scored(table.value, embed(query).value, score), HitScore)[..|hits|]
                         && multiset(hits) <= multiset(Scored(table.value, embed(query).value, score)))
  {
    var hits := Search(connect, table, embed, score, query, topK);
    if hits != [] {
      var scored := Scored(table.value, embed(query).value, score);
      var ranked := PyList.SortDesc(scored, HitScore);
      PyList.SortDescCorrect(scored, HitScore);
      assert ranked == hits + ranked[|hits|..];
      assert multiset(ranked) == multiset(hits) + multiset(ranked[|hits|..]);
    }
  }

  /** Every hit comes from a row that scored, with that score. */
  lemma SearchHitsFromRows(connect: Db.ConnectAttempt, table: Option<seq<ScanRow>>, embed: string -> Option<Db.Vector>,
                           score: (Db.Vector, Db.Vector) -> Option<real>, query: string, topK: int, h: Hit)
    requires h in Search(connect, table, embed, score, query, topK)
    ensures table.Some? && embed(query).Some?
    ensures exists i :: 0 <= i < |table.value| && score(embed(query).value, table.value[i].embedding) == Some(h.score)
                        && HitOf(table.value[i], h.score) == h
  {
    SearchRanked(connect, table, embed, score, query, topK);
    var scored := Scored(table.value, embed(query).value, score);
    var hits := Search(connect, table, embed, score, query, topK);
    assert h in multiset(hits);
    assert h in scored;
    ScoredMembers(table.value, embed(query).value, score, h);
  }

  /** For top_k >= 0 the result has min(top_k, scored rows) hits; for a
      negative top_k the slice drops the last |top_k| hits instead. */
  lemma SearchLength(connect: Db.ConnectAttempt, rows: seq<ScanRow>, embed: string -> Option<Db.Vector>,
                     score: (Db.Vector, Db.Vector) -> Option<real>, query: string, topK: int)
    requires Db.GetConnection(connect).Some? && rows != [] && embed(query).Some?
    ensures var n := |Scored(rows, embed(query).value, score)|;
      var hits := Search(connect, Some(rows), embed, score, query, topK);
      && (topK >= 0 ==> |hits| == if topK < n then topK else n)
      && (topK < 0 ==> |hits| == if -topK < n then n + topK else 0)
  {
    PyList.SortDescCorrect(Scored(rows, embed(query).value, score), HitScore);
  }

  /** Hits with equal scores keep their table-scan order: for each score, the
      returned hits with it are the first ones of the scanned hits with it. */
  lemma SearchTiesInScanOrder(connect: Db.ConnectAttempt, rows: seq<ScanRow>, embed: string -> Option<Db.Vector>,
                              score: (Db.Vector, Db.Vector) -> Option<real>, query: string, topK: int, v: real)
    requires Db.GetConnection(connect).Some? && rows != [] && embed(query).Some?
    ensures var scored := Scored(rows, embed(query).value, score);
      var tied := PyList.WithKey(Search(connect, Some(rows), embed, score, query, topK), HitScore, v);
      && |tied| <= |PyList.WithKey(scored, HitScore, v)|
      && tied == PyList.WithKey(scored, HitScore, v)[..|tied|]
  {
    var scored := Scored(rows, embed(query).value, score);
    var ranked := PyList.SortDesc(scored, HitScore);
    var hits := Search(connect, Some(rows), embed, score, query, topK);
    PyList.SortDescCorrect(scored, HitScore);
    assert hits == ranked[..|hits|];
    PyList.WithKeyOfPrefix(ranked, |hits|, HitScore, v);
  }

  /** Every returned score is at least every computed score that the slice
      cut off. */
  lemma SearchKeepsBest(connect: Db.ConnectAttempt, rows: seq<ScanRow>, embed: string -> Option<Db.Vector>,
                        score: (Db.Vector, Db.Vector) -> Option<real>, query: string, topK: int)
    requires Db.GetConnection(connect).Some? && rows != [] && embed(query).Some?
    ensures var ranked := PyList.SortDesc(Scored(rows, embed(query).value, score), HitScore);
      var hits := Search(connect, Some(rows), embed, score, query, topK);
      forall i, j :: 0 <= i < |hits| <= j < |ranked| ==> hits[i].score >= ranked[j].score
  {
    var ranked := PyList.SortDesc(Scored(rows, embed(query).value, score), HitScore);
    PyList.SortDescCorrect(Scored(rows, embed(query).value, score), HitScore);
    PyList.SliceKeepsLargest(ranked, topK, HitScore);
  }

  /** With no failure anywhere and top_k at least the table size, every row
      comes back exactly once (ScoredAll gives the hit of each row). */
  lemma SearchReturnsAll(connect: Db.ConnectAttempt, rows: seq<ScanRow>, embed: string -> Option<Db.Vector>,
                         score: (Db.Vector, Db.Vector) -> Option<real>, query: string, topK: int)
    requires Db.GetConnection(connect).Some? && rows != [] && embed(query).Some?
    requires forall i :: 0 <= i < |rows| ==> score(embed(query).value, rows[i].embedding).Some?
    requires topK >= |rows|
    ensures var scored := Scored(rows, embed(query).value, score);
      var hits := Search(connect, Some(rows), embed, score, query, topK);
      |hits| == |rows| && multiset(hits) == multiset(scored)
  {
    var q := embed(query).value;
    var scored := Scored(rows, q, score);
    ScoredAll(rows, q, score);
    var ranked := PyList.SortDesc(scored, HitScore);
    PyList.SortDescCorrect(scored, HitScore);
    assert Search(connect, Some(rows), embed, score, query, topK) == PyList.SliceTo(ranked, topK);
    assert PyList.SliceTo(ranked, topK) == ranked;
  }

  /** An empty table gives [] before the query is embedded: the result does
      not depend on the embedding call. */
  lemma EmptyTableNoEmbedding(connect: Db.ConnectAttempt, embed1: string -> Option<Db.Vector>, embed2: string -> Option<Db.Vector>,
                              score: (Db.Vector, Db.Vector) -> Option<real>, query: string, topK: int)
    ensures Search(connect, Some([]), embed1, score, query, topK) == Search(connect, Some([]), embed2, score, query, topK) == []
  {
  }

  /** A failing query embedding, a missing connection or a failing SELECT
      gives []. */
  lemma SearchFailuresGiveNothing(connect: Db.ConnectAttempt, table: Option<seq<ScanRow>>, embed: string -> Option<Db.Vector>,
                                  score: (Db.Vector, Db.Vector) -> Option<real>, query: string, topK: int)
    requires embed(query).None? || Db.GetConnection(connect).None? || table.None?
    ensures Search(connect, table, embed, score, query, topK) == []
  {
  }
}
