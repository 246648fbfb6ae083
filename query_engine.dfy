/** backend/query_engine.py: the second query path. It fetches every
    embeddings row (parsing the stored JSON vectors in place), ranks the rows
    against a query vector, and builds the prompt for the generator. Unlike
    search_engine.py, a score that raises is not caught here: the exception
    leaves find_most_relevant_chunks and generate_answer (Failure(Uncaught)). */
module QueryEngine {
  import opened Wrappers
  import opened PyStr
  import PyList
  import Db

  /** find_most_relevant_chunks' default top_k. */
  const DefaultTopK: int := 3

  const EmbeddingFailed: string := "\U{274C} Failed to generate embedding for query."
  const NoData: string := "\U{26A0}\U{FE0F} No relevant data found in the database."
  const ApiErrorPrefix: string := "\U{274C} Gemini API error: "

  /** The embedding column of a fetched row: the JSON text as selected, or
      the vector it was parsed into. */
  datatype Column = Json(text: string) | Parsed(vector: Db.Vector)

  /** A row of `SELECT document_id, chunk_index, text_chunk, embedding`, as a
      dictionary cursor returns it. */
  datatype FetchedRow = FetchedRow(documentId: string, chunkIndex: int, textChunk: string, embedding: Column)

  /** An exception that escapes to the caller. */
  datatype Uncaught = Uncaught

  /** `np.array(json.loads(c))`: `load` parses JSON text (None when it
      raises); json.loads of a value that is not text raises too. */
  function LoadColumn(c: Column, load: string -> Option<Db.Vector>): Option<Db.Vector> {
    match c
    case Json(t) => load(t)
    case Parsed(_) => None
  }

  /** The row after `row["embedding"] = np.array(json.loads(row["embedding"]))`. */
  function ParsedRow(row: FetchedRow, load: string -> Option<Db.Vector>): FetchedRow
    requires LoadColumn(row.embedding, load).Some?
  {
    row.(embedding := Parsed(LoadColumn(row.embedding, load).value))
  }

  /** Every row's embedding column parses. */
  predicate AllLoad(rows: seq<FetchedRow>, load: string -> Option<Db.Vector>) {
    forall i :: 0 <= i < |rows| ==> LoadColumn(rows[i].embedding, load).Some?
  }

  /** The loop of fetch_all_embeddings over the fetched rows: rewrites each
      row's embedding in place; the first column that does not parse raises,
      leaving the rows before it rewritten and the rest untouched. */
  method ParseEmbeddings(rows: array<FetchedRow>, load: string -> Option<Db.Vector>) returns (ok: bool)
    modifies rows
    ensures ok <==> AllLoad(old(rows[..]), load)
    ensures ok ==> forall i :: 0 <= i < rows.Length ==> rows[i] == ParsedRow(old(rows[i]), load)
    ensures !ok ==> exists k :: 0 <= k < rows.Length && LoadColumn(old(rows[k]).embedding, load).None? && (forall j :: 0 <= j < k ==> LoadColumn(old(rows[j]).embedding, load).Some? && rows[j] == ParsedRow(old(rows[j]), load)) && (forall j :: k <= j < rows.Length ==> rows[j] == old(rows[j]))
  {
    var i := 0;
    while i < rows.Length
      invariant 0 <= i <= rows.Length
      invariant forall j :: 0 <= j < i ==> LoadColumn(old(rows[j]).embedding, load).Some?
      invariant forall j :: 0 <= j < i ==> rows[j] == ParsedRow(old(rows[j]), load)
      invariant forall j :: i <= j < rows.Length ==> rows[j] == old(rows[j])
    {
      var v := LoadColumn(rows[i].embedding, load);
      if v.None? {
        assert !AllLoad(old(rows[..]), load) by {
          assert old(rows[..])[i] == old(rows[i]);
        }
        return false;
      }
      rows[i] := rows[i].(embedding := Parsed(v.value));
      i := i + 1;
    }
    assert AllLoad(old(rows[..]), load) by {
      forall j | 0 <= j < rows.Length ensures LoadColumn(old(rows[..])[j].embedding, load).Some? {
        assert old(rows[..])[j] == old(rows[j]);
      }
    }
    return true;
  }

  /** What fetch_all_embeddings returns: [] when get_connection gave None,
      when the SELECT raised (`fetched` None) or when any stored vector does
      not parse; otherwise every row with its vector parsed. */
  function Fetched(connect: Db.ConnectAttempt, fetched: Option<seq<FetchedRow>>,
                   load: string -> Option<Db.Vector>): seq<FetchedRow>
  {
    if Db.GetConnection(connect).None? || fetched.None? || !AllLoad(fetched.value, load) then []
    else seq(|fetched.value|, i requires 0 <= i < |fetched.value| && AllLoad(fetched.value, load) =>
               ParsedRow(fetched.value[i], load))
  }

  /** fetch_all_embeddings: the rows come back in a list whose dictionaries
      the parsing loop rewrites in place. */
  method FetchAllEmbeddings(connect: Db.ConnectAttempt, fetched: Option<seq<FetchedRow>>,
                            load: string -> Option<Db.Vector>) returns (rows: seq<FetchedRow>)
    ensures rows == Fetched(connect, fetched, load)
  {
    var conn := Db.GetConnection(connect);
    if conn.None? {
      return [];
    }
    if fetched.None? {
      return [];
    }
    var table := fetched.value;
    var buffer := new FetchedRow[|table|](i requires 0 <= i < |table| => table[i]);
    assert buffer[..] == table;
    var ok := ParseEmbeddings(buffer, load);
    if !ok {
      return [];
    }
    rows := buffer[..];
  }

  /** Fetching is all or nothing: either nothing comes back, or every
      selected row does, in order, with only its vector parsed. */
  lemma FetchAllOrNothing(connect: Db.ConnectAttempt, fetched: Option<seq<FetchedRow>>, load: string -> Option<Db.Vector>)
    ensures var rows := Fetched(connect, fetched, load);
      rows == [] || (
        && fetched.Some? && |rows| == |fetched.value|
        && forall i :: 0 <= i < |rows| ==>
             && rows[i].embedding.Parsed?
             && Some(rows[i].embedding.vector) == LoadColumn(fetched.value[i].embedding, load)
             && rows[i].(embedding := fetched.value[i].embedding) == fetched.value[i])
  {
  }

  /** A stored vector that does not parse empties the whole result. */
  lemma FetchBadRowEmptiesAll(connect: Db.ConnectAttempt, fetched: seq<FetchedRow>, load: string -> Option<Db.Vector>, k: nat)
    requires k < |fetched| && LoadColumn(fetched[k].embedding, load).None?
    ensures Fetched(connect, Some(fetched), load) == []
  {
  }

  /** One entry of `similarities`: (sim, text_chunk). */
  datatype Similarity = Similarity(sim: real, textChunk: string)

  /** The sort key, `lambda x: x[0]`. */
  function SimOf(s: Similarity): real {
    s.sim
  }

  /** cosine_similarity(query_embedding, row["embedding"]): None when it
      raises, and on a column that was never parsed. */
  function RowScore(row: FetchedRow, q: Db.Vector, score: (Db.Vector, Db.Vector) -> Option<real>): Option<real> {
    match row.embedding
    case Parsed(v) => score(q, v)
    case Json(_) => None
  }

  /** The similarities list the scoring loop builds: one entry per row, in
      row order, or the exception the first failing score raises. */
  function Similarities(rows: seq<FetchedRow>, q: Db.Vector, score: (Db.Vector, Db.Vector) -> Option<real>)
    : (r: Result<seq<Similarity>, Uncaught>)
    ensures r.Success? ==> |r.value| == |rows|
  {
    if rows == [] then Success([])
    else
      var last := rows[|rows| - 1];
      match Similarities(rows[..|rows| - 1], q, score)
      case Failure(e) => Failure(e)
      case Success(init) =>
        match RowScore(last, q, score)
        case None => Failure(Uncaught)
        case Some(s) => Success(init + [Similarity(s, last.textChunk)])
  }

  /** The texts of the similarities, in order (`[chunk for _, chunk in ...]`). */
  function Texts(sims: seq<Similarity>): (texts: seq<string>)
    ensures |texts| == |sims|
    ensures forall i :: 0 <= i < |sims| ==> texts[i] == sims[i].textChunk
  {
    seq(|sims|, i requires 0 <= i < |sims| => sims[i].textChunk)
  }

  /** The result of find_most_relevant_chunks over the fetched rows. */
  function MostRelevant(rows: seq<FetchedRow>, q: Db.Vector, score: (Db.Vector, Db.Vector) -> Option<real>,
                        topK: int := DefaultTopK): Result<seq<string>, Uncaught>
  {
    if rows == [] then Success([])
    else
      match Similarities(rows, q, score)
      case Failure(e) => Failure(e)
      case Success(sims) => Success(Texts(PyList.SliceTo(PyList.SortDesc(sims, SimOf), topK)))
  }

  /** find_most_relevant_chunks: fetches the rows, scores each one into
      `similarities`, sorts that list in place and keeps the first top_k texts. */
  method FindMostRelevantChunks(connect: Db.ConnectAttempt, fetched: Option<seq<FetchedRow>>, load: string -> Option<Db.Vector>,
                                q: Db.Vector, score: (Db.Vector, Db.Vector) -> Option<real>, topK: int := DefaultTopK)
    returns (r: Result<seq<string>, Uncaught>)
    ensures r == MostRelevant(Fetched(connect, fetched, load), q, score, topK)
  {
    var rows := FetchAllEmbeddings(connect, fetched, load);
    if rows == [] {
      return Success([]);
    }
    var similarities: seq<Similarity> := [];
    var i := 0;
    while i < |rows|
      invariant i <= |rows|
      invariant Similarities(rows[..i], q, score) == Success(similarities)
    {
      assert rows[..i + 1][..i] == rows[..i];
      var sim := RowScore(rows[i], q, score);
      if sim.None? {
        SimilaritiesFail(rows, q, score);
        assert Similarities(rows, q, score).Failure?;
        assert MostRelevant(rows, q, score, topK).Failure?;
        assert MostRelevant(rows, q, score, topK).error == Uncaught;
        return Failure(Uncaught);
      }
      similarities := similarities + [Similarity(sim.value, rows[i].textChunk)];
      i := i + 1;
    }
    assert rows[..i] == rows;
    similarities := PyList.SortDesc(similarities, SimOf);
    r := Success(Texts(PyList.SliceTo(similarities, topK)));
  }

  /** The ranking raises exactly when some row's score raises. */
  lemma {:induction false} SimilaritiesFail(rows: seq<FetchedRow>, q: Db.Vector, score: (Db.Vector, Db.Vector) -> Option<real>)
    ensures Similarities(rows, q, score).Failure? <==> exists i :: 0 <= i < |rows| && RowScore(rows[i], q, score).None?
    decreases |rows|
  {
    if rows != [] {
      var init := rows[..|rows| - 1];
      SimilaritiesFail(init, q, score);
      if exists i :: 0 <= i < |init| && RowScore(init[i], q, score).None? {
        var i :| 0 <= i < |init| && RowScore(init[i], q, score).None?;
        assert rows[i] == init[i];
      }
      if exists i :: 0 <= i < |rows| && RowScore(rows[i], q, score).None? {
        var i :| 0 <= i < |rows| && RowScore(rows[i], q, score).None?;
        if i < |init| {
          assert init[i] == rows[i];
        }
      }
    }
  }

  /** When every row scores, entry i of the similarities is row i's score and
      text. */
  lemma {:induction false} SimilaritiesOfRows(rows: seq<FetchedRow>, q: Db.Vector, score: (Db.Vector, Db.Vector) -> Option<real>)
    requires Similarities(rows, q, score).Success?
    ensures forall i :: 0 <= i < |rows| ==>
      && RowScore(rows[i], q, score).Some?
      && Similarities(rows, q, score).value[i] == Similarity(RowScore(rows[i], q, score).value, rows[i].textChunk)
    decreases |rows|
  {
    if rows != [] {
      var init := rows[..|rows| - 1];
      SimilaritiesOfRows(init, q, score);
      forall i | 0 <= i < |rows| - 1 ensures rows[i] == init[i] { }
    }
  }

  /** No rows: [] without scoring anything. */
  lemma NoRowsNoChunks(q: Db.Vector, score: (Db.Vector, Db.Vector) -> Option<real>, topK: int)
    ensures MostRelevant([], q, score, topK) == Success([])
  {
  }

  /** When the ranking succeeds it holds min(top_k, rows) texts (for
      top_k >= 0), which are the texts of a non-increasing arrangement of all
      the rows' scores in which equal scores keep row order. */
  lemma MostRelevantRanked(rows: seq<FetchedRow>, q: Db.Vector, score: (Db.Vector, Db.Vector) -> Option<real>, topK: int)
    requires MostRelevant(rows, q, score, topK).Success?
    requires rows != []
    ensures var texts := MostRelevant(rows, q, score, topK).value;
      var sims := Similarities(rows, q, score).value;
      var ranked := PyList.SortDesc(sims, SimOf);
      && (topK >= 0 ==> |texts| == if topK < |rows| then topK else |rows|)
      && PyList.SortedDesc(ranked, SimOf)
      && multiset(ranked) == multiset(sims)
      && (forall v :: PyList.WithKey(ranked, SimOf, v) == PyList.WithKey(sims, SimOf, v))
      && |texts| <= |ranked|
      && (forall i :: 0 <= i < |texts| ==> texts[i] == ranked[i].textChunk)
  {
    var sims := Similarities(rows, q, score).value;
    PyList.SortDescCorrect(sims, SimOf);
  }

  /** The result of generate_answer(query): `queryEmbedding` is what
      generate_query_embedding returned (None when it raised), `generate`
      the generator call. An exception from the ranking is not caught. */
  function GenerateAnswer(query: string, queryEmbedding: Option<Db.Vector>,
                          connect: Db.ConnectAttempt, fetched: Option<seq<FetchedRow>>, load: string -> Option<Db.Vector>,
                          score: (Db.Vector, Db.Vector) -> Option<real>,
                          generate: string -> Result<string, string>): Result<string, Uncaught>
  {
    match queryEmbedding
    case None => Success(EmbeddingFailed)
    case Some(q) =>
      match MostRelevant(Fetched(connect, fetched, load), q, score)
      case Failure(e) => Failure(e)
      case Success(chunks) =>
        if chunks == [] then Success(NoData)
        else
          match generate(Prompt(Join("\n\n", chunks), query))
          case Success(text) => Success(Strip(text))
          case Failure(msg) => Success(ApiErrorPrefix + msg)
  }

  /** The fixed text of the generate_answer prompt around the context and the query. */
  const PromptHead: string := "\nYou are an intelligent assistant. Use the context below to answer the user query accurately.\n\nContext:\n"
  const PromptMiddle: string := "\n\nUser Query:\n"
  const PromptTail: string := "\n\nAnswer:\n    "

  /** The prompt of generate_answer, with the context and the query in place. */
  function Prompt(context: string, query: string): string {
    PromptHead + context + PromptMiddle + query + PromptTail
  }

  /** No query embedding: the fixed message, whatever the table and the
      generator would have done. */
  lemma NoEmbeddingMessage(query: string, connect: Db.ConnectAttempt, fetched: Option<seq<FetchedRow>>,
                           load: string -> Option<Db.Vector>, score: (Db.Vector, Db.Vector) -> Option<real>,
                           generate: string -> Result<string, string>)
    ensures GenerateAnswer(query, None, connect, fetched, load, score, generate) == Success(EmbeddingFailed)
  {
  }

  /** Nothing fetched: the no-data sentinel, without calling the generator. */
  lemma NothingFetchedSentinel(query: string, q: Db.Vector, connect: Db.ConnectAttempt, fetched: Option<seq<FetchedRow>>,
                               load: string -> Option<Db.Vector>, score: (Db.Vector, Db.Vector) -> Option<real>,
                               generate: string -> Result<string, string>)
    requires Fetched(connect, fetched, load) == []
    ensures GenerateAnswer(query, Some(q), connect, fetched, load, score, generate) == Success(NoData)
  {
  }

  /** find_most_relevant_chunks raises exactly when the score raises on
      some row. */
  lemma MostRelevantRaises(rows: seq<FetchedRow>, q: Db.Vector, score: (Db.Vector, Db.Vector) -> Option<real>, topK: int)
    ensures MostRelevant(rows, q, score, topK).Failure? <==> exists i :: 0 <= i < |rows| && RowScore(rows[i], q, score).None?
  {
    SimilaritiesFail(rows, q, score);
  }

  /** generate_answer raises exactly when the score raises on some fetched
      row (given a query embedding). */
  lemma AnswerRaises(query: string, q: Db.Vector, connect: Db.ConnectAttempt, fetched: Option<seq<FetchedRow>>,
                     load: string -> Option<Db.Vector>, score: (Db.Vector, Db.Vector) -> Option<real>,
                     generate: string -> Result<string, string>)
    ensures var rows := Fetched(connect, fetched, load);
      (GenerateAnswer(query, Some(q), connect, fetched, load, score, generate).Failure?
       <==> exists i :: 0 <= i < |rows| && RowScore(rows[i], q, score).None?)
  {
    var rows := Fetched(connect, fetched, load);
    MostRelevantRaises(rows, q, score, DefaultTopK);
    match MostRelevant(rows, q, score) {
      case Failure(_) =>
      case Success(chunks) =>
        assert GenerateAnswer(query, Some(q), connect, fetched, load, score, generate).Success?;
    }
    assert GenerateAnswer(query, Some(q), connect, fetched, load, score, generate).Failure?
       <==> MostRelevant(rows, q, score).Failure?;
  }

  /** With ranked chunks, the generator gets the prompt over their "\n\n"
      join, and its answer comes back stripped or its error behind the
      prefix. */
  lemma AnswerFromChunks(query: string, q: Db.Vector, connect: Db.ConnectAttempt, fetched: Option<seq<FetchedRow>>,
                         load: string -> Option<Db.Vector>, score: (Db.Vector, Db.Vector) -> Option<real>,
                         generate: string -> Result<string, string>, chunks: seq<string>)
    requires MostRelevant(Fetched(connect, fetched, load), q, score) == Success(chunks)
    requires chunks != []
    ensures var reply := generate(Prompt(Join("\n\n", chunks), query));
      GenerateAnswer(query, Some(q), connect, fetched, load, score, generate)
        == Success(if reply.Success? then Strip(reply.value) else ApiErrorPrefix + reply.error)
  {
  }
}
