/** backend/generate_embeddings.py: the word chunker and the live ingestion
    loop. The sentence-transformer model is an oracle `encode` that returns a
    vector or raises (None). The chunker is also used, unchanged, by
    backend/embeddings.py. */
module GenerateEmbeddings {
  import opened Wrappers
  import opened PyStr
  import Db

  /** chunk_text's default chunk_size. */
  const DefaultChunkSize: int := 500

  /** range(0, n, 0) raises ValueError. */
  datatype ChunkError = ZeroStep

  /** Groups words into runs of `size` (the last run may be shorter), each
      joined by single spaces. */
  function ChunkWords(words: seq<string>, size: nat): seq<string>
    requires size > 0
    decreases |words|
  {
    if words == [] then []
    else
      var n := if |words| < size then |words| else size;
      [Join(" ", words[..n])] + ChunkWords(words[n..], size)
  }

  /** chunk_text(text, chunk_size): the chunks the generator yields, or the
      error `range` raises for a zero step. A negative step yields nothing. */
  function ChunkText(text: string, size: int := DefaultChunkSize): (r: Result<seq<string>, ChunkError>)
    ensures r.Failure? <==> size == 0
    ensures size < 0 ==> r == Success([])
    ensures size > 0 ==> r == Success(ChunkWords(Split(text), size))
  {
    if size == 0 then Failure(ZeroStep)
    else if size < 0 then Success([])
    else Success(ChunkWords(Split(text), size))
  }

  /** The words of the chunks, in chunk order. */
  function WordsOf(chunks: seq<string>): seq<string> {
    if chunks == [] then [] else Split(chunks[0]) + WordsOf(chunks[1..])
  }

  /** ceil(w / size) */
  function CeilDiv(w: nat, size: nat): nat
    requires size > 0
  {
    (w + size - 1) / size
  }

  lemma MulAtLeastOnce(k: int, n: int)
    requires k >= 1 && n > 0
    ensures k * n >= n
  {
    assert k * n == (k - 1) * n + n;
  }

  /** Integer division is determined by quotient and remainder. */
  lemma DivUnique(a: int, n: int, q: int, r: int)
    requires n > 0 && 0 <= r < n && a == q * n + r
    ensures a / n == q
  {
    var Q, R := a / n, a % n;
    assert a == Q * n + R;
    assert (Q - q) * n == r - R;
    assert (q - Q) * n == R - r;
    if Q > q {
      MulAtLeastOnce(Q - q, n);
    } else if Q < q {
      MulAtLeastOnce(q - Q, n);
    }
  }

  lemma CeilDivStep(w: nat, size: nat)
    requires size > 0 && w > size
    ensures CeilDiv(w, size) == 1 + CeilDiv(w - size, size)
  {
    var b := w - 1;
    assert w - size + size - 1 == b;
    var q, r := b / size, b % size;
    assert b == q * size + r;
    assert (q + 1) * size == q * size + size;
    DivUnique(b + size, size, q + 1, r);
  }

  /** There are ceil(W / size) chunks, W the number of words. */
  lemma {:induction false} ChunkCount(words: seq<string>, size: nat)
    requires size > 0
    ensures |ChunkWords(words, size)| == CeilDiv(|words|, size)
    decreases |words|
  {
    if words == [] {
      DivUnique(size - 1, size, 0, size - 1);
    } else {
      var n := if |words| < size then |words| else size;
      ChunkCount(words[n..], size);
      assert |ChunkWords(words, size)| == 1 + |ChunkWords(words[n..], size)|;
      if |words| > size {
        CeilDivStep(|words|, size);
      } else {
        DivUnique(|words| + size - 1, size, 1, |words| - 1);
      }
    }
  }

  /** The first chunk and the rest: what ChunkWords unfolds to. */
  lemma ChunkWordsUnfold(words: seq<string>, size: nat)
    requires size > 0 && words != []
    ensures var n := if |words| < size then |words| else size;
      var chunks := ChunkWords(words, size);
      && chunks[0] == Join(" ", words[..n])
      && chunks[1..] == ChunkWords(words[n..], size)
  {
  }

  /** Each chunk is its words joined by single spaces. */
  lemma {:induction false} ChunksAreJoinedWords(words: seq<string>, size: nat)
    requires size > 0
    requires forall i :: 0 <= i < |words| ==> IsWord(words[i])
    ensures var chunks := ChunkWords(words, size);
      forall i :: 0 <= i < |chunks| ==> Join(" ", Split(chunks[i])) == chunks[i]
    decreases |words|
  {
    var chunks := ChunkWords(words, size);
    if words != [] {
      var n := if |words| < size then |words| else size;
      ChunkWordsUnfold(words, size);
      SplitJoin(words[..n]);
      ChunksAreJoinedWords(words[n..], size);
      forall i | 0 <= i < |chunks| ensures Join(" ", Split(chunks[i])) == chunks[i] {
        if i > 0 {
          assert chunks[i] == chunks[1..][i - 1];
        }
      }
    }
  }

  /** Every chunk but the last has exactly `size` words; the last has between
      1 and `size`. */
  lemma {:induction false} ChunkSizes(words: seq<string>, size: nat)
    requires size > 0
    requires forall i :: 0 <= i < |words| ==> IsWord(words[i])
    ensures var chunks := ChunkWords(words, size);
      && (forall i :: 0 <= i < |chunks| - 1 ==> |Split(chunks[i])| == size)
      && (chunks != [] ==> 1 <= |Split(chunks[|chunks| - 1])| <= size)
    decreases |words|
  {
    var chunks := ChunkWords(words, size);
    if words != [] {
      var n := if |words| < size then |words| else size;
      ChunkWordsUnfold(words, size);
      SplitJoin(words[..n]);
      ChunkSizes(words[n..], size);
      var rest := chunks[1..];
      if n < size {
        assert words[n..] == [];
        assert rest == [];
      }
      forall i | 1 <= i < |chunks| ensures chunks[i] == rest[i - 1] { }
    }
  }

  /** The words of all chunks, in order, are the words of the text. */
  lemma {:induction false} ChunkWordsReconstruct(words: seq<string>, size: nat)
    requires size > 0
    requires forall i :: 0 <= i < |words| ==> IsWord(words[i])
    ensures WordsOf(ChunkWords(words, size)) == words
    decreases |words|
  {
    if words != [] {
      var n := if |words| < size then |words| else size;
      ChunkWordsUnfold(words, size);
      SplitJoin(words[..n]);
      ChunkWordsReconstruct(words[n..], size);
      assert words == words[..n] + words[n..];
    }
  }

  /** Every chunk is non-empty and has no whitespace at either end, so it is
      its own strip. */
  lemma {:induction false} ChunksTrimmed(words: seq<string>, size: nat)
    requires size > 0
    requires forall i :: 0 <= i < |words| ==> IsWord(words[i])
    ensures forall c :: c in ChunkWords(words, size) ==> c != [] && Strip(c) == c
    decreases |words|
  {
    if words != [] {
      var n := if |words| < size then |words| else size;
      JoinWordsEnds(words[..n]);
      StripTrimmed(Join(" ", words[..n]));
      ChunksTrimmed(words[n..], size);
    }
  }

  /** Text with no words, the empty or whitespace-only text, yields no chunk;
      any other text yields at least one. */
  lemma BlankTextNoChunks(text: string, size: nat)
    requires size > 0
    ensures ChunkText(text, size).value == [] <==> IsBlank(text)
  {
    SplitBlank(text);
    ChunkCount(Split(text), size);
  }

  /** The two-word chunking of "alpha beta gamma delta echo". */
  lemma FiveWordsInPairs()
    ensures ChunkText("alpha beta gamma delta echo", 2) == Success(["alpha beta", "gamma delta", "echo"])
  {
    FiveWordsSplit();
    FiveWordsChunked();
  }

  /** The words of "alpha beta gamma delta echo". */
  lemma FiveWordsSplit()
    ensures Split("alpha beta gamma delta echo") == ["alpha", "beta", "gamma", "delta", "echo"]
  {
    var ws := ["alpha", "beta", "gamma", "delta", "echo"];
    FiveWordsAreWords();
    SplitJoin(ws);
    FiveWordsJoined();
  }

  /** Each of the five is a word: non-empty, without whitespace. */
  lemma FiveWordsAreWords()
    ensures IsWord("alpha") && IsWord("beta") && IsWord("gamma") && IsWord("delta") && IsWord("echo")
  {
  }

  /** The five words joined by single spaces are the text. */
  lemma FiveWordsJoined()
    ensures Join(" ", ["alpha", "beta", "gamma", "delta", "echo"]) == "alpha beta gamma delta echo"
  {
    var ws := ["alpha", "beta", "gamma", "delta", "echo"];
    assert ws[1..] == ["beta", "gamma", "delta", "echo"];
    assert ws[1..][1..] == ["gamma", "delta", "echo"];
    assert ws[1..][1..][1..] == ["delta", "echo"];
    assert ws[1..][1..][1..][1..] == ["echo"];
  }

  /** The two-word chunks of the five words. */
  lemma FiveWordsChunked()
    ensures ChunkWords(["alpha", "beta", "gamma", "delta", "echo"], 2) == ["alpha beta", "gamma delta", "echo"]
  {
    var ws := ["alpha", "beta", "gamma", "delta", "echo"];
    assert ws[..2] == ["alpha", "beta"] && ws[2..] == ["gamma", "delta", "echo"];
    var ws2 := ws[2..];
    assert ws2[..2] == ["gamma", "delta"] && ws2[2..] == ["echo"];
    var ws3 := ["echo"];
    assert ws3[..1] == ["echo"] && ws3[1..] == [];
    assert ["alpha", "beta"][1..] == ["beta"];
    assert ["gamma", "delta"][1..] == ["delta"];
    assert Join(" ", ["alpha", "beta"]) == "alpha beta";
    assert Join(" ", ["gamma", "delta"]) == "gamma delta";
    assert Join(" ", ["echo"]) == "echo";
    assert ChunkWords([], 2) == [];
    assert ChunkWords(ws3, 2) == ["echo"];
    assert ChunkWords(ws2, 2) == ["gamma delta", "echo"];
  }

  // ---------------------------------------------------------------------
  // create_embeddings

  /** The number of chunks `encode` handles before the first one it raises
      on (all of them when it never raises). */
  function EncodedCount(chunks: seq<string>, encode: string -> Option<Db.Vector>): (k: nat)
    ensures k <= |chunks|
    ensures forall j :: 0 <= j < k ==> encode(chunks[j]).Some?
    ensures k < |chunks| ==> encode(chunks[k]).None?
  {
    if chunks == [] || encode(chunks[0]).None? then 0
    else 1 + EncodedCount(chunks[1..], encode)
  }

  /** The rows the first n chunks add: chunk i, its enumerate index i and its
      vector, when the write for index i lands. */
  function RowsFor(docId: string, chunks: seq<string>, encode: string -> Option<Db.Vector>,
                   write: int -> Db.WriteAttempt, n: nat): seq<Db.EmbeddingRow>
    requires n <= |chunks|
    requires forall j :: 0 <= j < n ==> encode(chunks[j]).Some?
  {
    if n == 0 then []
    else
      RowsFor(docId, chunks, encode, write, n - 1)
      + (if Db.Lands(write(n - 1))
         then [Db.EmbeddingRow(docId, n - 1, chunks[n - 1], encode(chunks[n - 1]).value)]
         else [])
  }

  /** The rows create_embeddings(doc_id, text) adds to the embeddings table. */
  function Ingested(docId: string, text: string, encode: string -> Option<Db.Vector>,
                    write: int -> Db.WriteAttempt): seq<Db.EmbeddingRow>
  {
    var chunks := ChunkText(text).value;
    RowsFor(docId, chunks, encode, write, EncodedCount(chunks, encode))
  }

  /** create_embeddings: embeds the chunks in order and inserts each with its
      enumerate index; the first exception from the model ends the loop and is
      swallowed, so only the chunks before it are stored. */
  method CreateEmbeddings(db: Db.Database, docId: string, text: string,
                          encode: string -> Option<Db.Vector>, write: int -> Db.WriteAttempt)
    modifies db
    ensures db.documents == old(db.documents)
    ensures db.embeddings == old(db.embeddings) + Ingested(docId, text, encode, write)
  {
    var chunks := ChunkText(text).value;
    var i := 0;
    while i < |chunks|
      invariant i <= |chunks|
      invariant forall j :: 0 <= j < i ==> encode(chunks[j]).Some?
      invariant db.documents == old(db.documents)
      invariant db.embeddings == old(db.embeddings) + RowsFor(docId, chunks, encode, write, i)
    {
      var embedding := encode(chunks[i]);
      if embedding.None? {
        EncodedCountIs(chunks, encode, i);
        return;
      }
      db.InsertEmbedding(docId, i, chunks[i], embedding.value, write(i));
      i := i + 1;
    }
    EncodedCountIs(chunks, encode, i);
  }

  /** EncodedCount is the one position k before which every chunk encodes
      and at which, if anywhere, encoding raises. */
  lemma {:induction false} EncodedCountIs(chunks: seq<string>, encode: string -> Option<Db.Vector>, k: nat)
    requires k <= |chunks|
    requires forall j :: 0 <= j < k ==> encode(chunks[j]).Some?
    requires k < |chunks| ==> encode(chunks[k]).None?
    ensures EncodedCount(chunks, encode) == k
    decreases k
  {
    if k > 0 {
      assert encode(chunks[0]).Some?;
      var rest := chunks[1..];
      forall j | 0 <= j < k - 1 ensures encode(rest[j]).Some? {
        assert rest[j] == chunks[j + 1];
      }
      EncodedCountIs(rest, encode, k - 1);
    }
  }

  /** Rows that carry doc_id and, for each, the chunk at its index below n
      with that chunk's vector, in strictly increasing index order. */
  predicate ChunkRows(rows: seq<Db.EmbeddingRow>, docId: string, chunks: seq<string>,
                      encode: string -> Option<Db.Vector>, n: nat)
    requires n <= |chunks|
  {
    && (forall i :: 0 <= i < |rows| ==>
          && 0 <= rows[i].chunkIndex < n
          && rows[i].documentId == docId
          && rows[i].textChunk == chunks[rows[i].chunkIndex]
          && Some(rows[i].embedding) == encode(chunks[rows[i].chunkIndex]))
    && (forall i, j :: 0 <= i < j < |rows| ==> rows[i].chunkIndex < rows[j].chunkIndex)
  }

  /** The rows of the first n chunks have that shape, whichever writes land. */
  lemma {:induction false} RowsForShape(docId: string, chunks: seq<string>, encode: string -> Option<Db.Vector>,
                                        write: int -> Db.WriteAttempt, n: nat)
    requires n <= |chunks|
    requires forall j :: 0 <= j < n ==> encode(chunks[j]).Some?
    ensures ChunkRows(RowsFor(docId, chunks, encode, write, n), docId, chunks, encode, n)
  {
    if n > 0 {
      RowsForShape(docId, chunks, encode, write, n - 1);
      var prev := RowsFor(docId, chunks, encode, write, n - 1);
      assert ChunkRows(prev, docId, chunks, encode, n - 1);
      var rows := RowsFor(docId, chunks, encode, write, n);
      var added := if Db.Lands(write(n - 1))
                   then [Db.EmbeddingRow(docId, n - 1, chunks[n - 1], encode(chunks[n - 1]).value)]
                   else [];
      assert rows == prev + added;
      forall i | 0 <= i < |rows|
        ensures && 0 <= rows[i].chunkIndex < n
                && rows[i].documentId == docId
                && rows[i].textChunk == chunks[rows[i].chunkIndex]
                && Some(rows[i].embedding) == encode(chunks[rows[i].chunkIndex])
      {
        if i < |prev| {
          assert rows[i] == prev[i];
        } else {
          assert rows[i] == added[0];
        }
      }
      forall i, j | 0 <= i < j < |rows| ensures rows[i].chunkIndex < rows[j].chunkIndex {
        if j >= |prev| {
          assert rows[i] == prev[i];
          assert rows[j] == added[0];
        } else {
          assert rows[i] == prev[i] && rows[j] == prev[j];
        }
      }
    }
  }

  /** When every write lands, the first n chunks give exactly n rows, row i
      holding chunk i with index i. */
  lemma {:induction false} RowsWhenAllLand(docId: string, chunks: seq<string>, encode: string -> Option<Db.Vector>,
                                           write: int -> Db.WriteAttempt, n: nat)
    requires n <= |chunks|
    requires forall j :: 0 <= j < n ==> encode(chunks[j]).Some?
    requires forall j :: 0 <= j < n ==> Db.Lands(write(j))
    ensures var rows := RowsFor(docId, chunks, encode, write, n);
      && |rows| == n
      && forall i :: 0 <= i < n ==> rows[i] == Db.EmbeddingRow(docId, i, chunks[i], encode(chunks[i]).value)
  {
    if n > 0 {
      RowsWhenAllLand(docId, chunks, encode, write, n - 1);
    }
  }

  /** With no failure anywhere, create_embeddings stores one row per chunk,
      in chunk order, with indices 0 .. n-1. */
  lemma IngestAll(docId: string, text: string, encode: string -> Option<Db.Vector>, write: int -> Db.WriteAttempt)
    requires forall c :: encode(c).Some?
    requires forall j :: Db.Lands(write(j))
    ensures var chunks := ChunkText(text).value; var rows := Ingested(docId, text, encode, write);
      && |rows| == |chunks|
      && forall i :: 0 <= i < |rows| ==> rows[i] == Db.EmbeddingRow(docId, i, chunks[i], encode(chunks[i]).value)
  {
    var chunks := ChunkText(text).value;
    RowsWhenAllLand(docId, chunks, encode, write, EncodedCount(chunks, encode));
  }

  /** If the model raises on chunk k, exactly chunks 0 .. k-1 are stored
      (when their writes land), and nothing after. */
  lemma IngestStopsAtFailure(docId: string, text: string, encode: string -> Option<Db.Vector>,
                             write: int -> Db.WriteAttempt, k: nat)
    requires var chunks := ChunkText(text).value;
      && k < |chunks|
      && (forall j :: 0 <= j < k ==> encode(chunks[j]).Some?)
      && encode(chunks[k]).None?
    requires forall j :: Db.Lands(write(j))
    ensures var chunks := ChunkText(text).value; var rows := Ingested(docId, text, encode, write);
      && |rows| == k
      && forall i :: 0 <= i < k ==> rows[i].chunkIndex == i && rows[i].textChunk == chunks[i]
  {
    var chunks := ChunkText(text).value;
    assert EncodedCount(chunks, encode) == k;
    RowsWhenAllLand(docId, chunks, encode, write, k);
  }

  /** Empty or whitespace-only text stores nothing: there is no guard, the
      chunker simply yields no chunk. */
  lemma BlankTextIngestsNothing(docId: string, text: string, encode: string -> Option<Db.Vector>,
                                write: int -> Db.WriteAttempt)
    requires IsBlank(text)
    ensures Ingested(docId, text, encode, write) == []
  {
    BlankTextNoChunks(text, DefaultChunkSize);
  }
}
