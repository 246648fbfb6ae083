/** backend/query_handler.py: the answer path the application uses. It asks
    search_similar_chunks for five hits, returns a fixed sentinel when there
    are none, and otherwise sends the hits' texts, joined by blank lines, to
    the generator inside a fixed prompt. Generator errors come back as text. */
module QueryHandler {
  import opened Wrappers
  import opened PyStr
  import Db
  import SearchEngine
  import PyList

  /** The top_k generate_answer passes to the search. */
  const SearchTopK: int := 5

  const NoData: string := "\U{26A0}\U{FE0F} No relevant data found in the database."
  const ErrorPrefix: string := "\U{274C} Gemini error: "

  /** `[chunk[2] for chunk in similar_chunks]` */
  function ChunkTexts(hits: seq<SearchEngine.Hit>): (texts: seq<string>)
    ensures |texts| == |hits|
    ensures forall i :: 0 <= i < |hits| ==> texts[i] == hits[i].textChunk
  {
    seq(|hits|, i requires 0 <= i < |hits| => hits[i].textChunk)
  }

  /** The fixed text of the generate_answer prompt around the context and the query. */
  const PromptHead: string := "\n        You are a helpful assistant. Use the following document context to answer the user query.\n\n        Context:\n        "
  const PromptMiddle: string := "\n\n        User Query:\n        "
  const PromptTail: string := "\n\n        Provide a clear, accurate, and concise answer.\n        "

  /** The prompt of generate_answer, with the context and the query in place. */
  function Prompt(context: string, query: string): string {
    PromptHead + context + PromptMiddle + query + PromptTail
  }

  /** What the generator's reply becomes: its text stripped, or the error
      message behind the prefix. */
  function Reply(reply: Result<string, string>): string {
    match reply
    case Success(text) => Strip(text)
    case Failure(msg) => ErrorPrefix + msg
  }

  /** generate_answer(query): the search, with the arguments it passes to
      search_similar_chunks, then the sentinel or the generator's reply. It
      never raises. */
  function GenerateAnswer(query: string, connect: Db.ConnectAttempt, table: Option<seq<SearchEngine.ScanRow>>,
                          embed: string -> Option<Db.Vector>, score: (Db.Vector, Db.Vector) -> Option<real>,
                          generate: string -> Result<string, string>): string
  {
    var hits := SearchEngine.Search(connect, table, embed, score, query, SearchTopK);
    if hits == [] then NoData
    else Reply(generate(Prompt(Join("\n\n", ChunkTexts(hits)), query)))
  }

  /** No hits: the sentinel, whatever the generator would say. */
  lemma NoHitsSentinel(query: string, connect: Db.ConnectAttempt, table: Option<seq<SearchEngine.ScanRow>>,
                       embed: string -> Option<Db.Vector>, score: (Db.Vector, Db.Vector) -> Option<real>,
                       generate1: string -> Result<string, string>, generate2: string -> Result<string, string>)
    requires SearchEngine.Search(connect, table, embed, score, query, SearchTopK) == []
    ensures GenerateAnswer(query, connect, table, embed, score, generate1)
         == GenerateAnswer(query, connect, table, embed, score, generate2) == NoData
  {
  }

  /** With hits, the generator sees at most five texts, in ranked order,
      joined by "\n\n", and the answer is its stripped reply or its error. */
  lemma AnswerFromHits(query: string, connect: Db.ConnectAttempt, table: Option<seq<SearchEngine.ScanRow>>,
                       embed: string -> Option<Db.Vector>, score: (Db.Vector, Db.Vector) -> Option<real>,
                       generate: string -> Result<string, string>)
    requires SearchEngine.Search(connect, table, embed, score, query, SearchTopK) != []
    ensures var hits := SearchEngine.Search(connect, table, embed, score, query, SearchTopK);
      var texts := ChunkTexts(hits);
      && 1 <= |texts| <= 5
      && (forall i, j :: 0 <= i < j < |hits| ==> hits[i].score >= hits[j].score)
      && GenerateAnswer(query, connect, table, embed, score, generate) == Reply(generate(Prompt(Join("\n\n", texts), query)))
  {
    var hits := SearchEngine.Search(connect, table, embed, score, query, SearchTopK);
    SearchEngine.SearchRanked(connect, table, embed, score, query, SearchTopK);
    assert table.Some? && embed(query).Some?;
    SearchEngine.SearchLength(connect, table.value, embed, score, query, SearchTopK);
    var texts := ChunkTexts(hits);
    assert 1 <= |texts| <= 5;
    assert PyList.SortedDesc(hits, SearchEngine.HitScore);
    assert GenerateAnswer(query, connect, table, embed, score, generate) == Reply(generate(Prompt(Join("\n\n", texts), query)));
  }

  /** A successful reply is returned without surrounding whitespace. */
  lemma RepliesStripped(reply: Result<string, string>)
    requires reply.Success?
    ensures Strip(Reply(reply)) == Reply(reply)
  {
    StripIdempotent(reply.value);
  }

  /** The caller cannot tell a failing generator from one whose answer reads
      like the error text: both give the same string. */
  lemma ErrorLooksLikeAnswer(msg: string)
    requires msg != [] && !IsSpace(msg[|msg| - 1])
    ensures Reply(Failure(msg)) == Reply(Success(ErrorPrefix + msg))
  {
    var s := ErrorPrefix + msg;
    assert s[0] == '\U{274C}';
    assert s[|s| - 1] == msg[|msg| - 1];
    StripTrimmed(s);
  }
}
