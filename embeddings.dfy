/** backend/embeddings.py: the Gemini variant of the ingestion loop. It
    shares the word chunker of backend/generate_embeddings.py (the two
    definitions are the same text). The embedding call is an oracle `embed`:
    None when embed_content raises, Some(v) when it returns, v == [] standing
    for a missing or empty "embedding" entry. */
module Embeddings {
  import opened Wrappers
  import opened PyStr
  import Db
  import GenerateEmbeddings

  /** The loop skips this chunk without embedding it: `not chunk.strip()`,
      which holds exactly for blank chunks (see PyStr.Strip). */
  predicate Skipped(chunk: string) {
    IsBlank(chunk)
  }

  /** `not chunk.strip()` */
  method IsSkipped(chunk: string) returns (skip: bool)
    ensures skip <==> Skipped(chunk)
  {
    skip := Strip(chunk) == [];
  }

  /** The position at which the loop stops: the first chunk that is embedded
      and whose embedding call raises, or the end. */
  function Reached(chunks: seq<string>, embed: string -> Option<Db.Vector>): (k: nat)
    ensures k <= |chunks|
    ensures forall j :: 0 <= j < k ==> Skipped(chunks[j]) || embed(chunks[j]).Some?
    ensures k < |chunks| ==> !Skipped(chunks[k]) && embed(chunks[k]).None?
  {
    if chunks == [] || (!Skipped(chunks[0]) && embed(chunks[0]).None?) then 0
    else 1 + Reached(chunks[1..], embed)
  }

  /** The chunk at position j is stored: not skipped, its embedding is
      non-empty, and the write for index j lands. */
  predicate Kept(chunks: seq<string>, embed: string -> Option<Db.Vector>, write: int -> Db.WriteAttempt, j: nat)
    requires j < |chunks|
    requires Skipped(chunks[j]) || embed(chunks[j]).Some?
  {
    !Skipped(chunks[j]) && embed(chunks[j]).value != [] && Db.Lands(write(j))
  }

  /** The rows the first n chunks add, each with its enumerate index. */
  function StoredRows(docId: string, chunks: seq<string>, embed: string -> Option<Db.Vector>,
                      write: int -> Db.WriteAttempt, n: nat): seq<Db.EmbeddingRow>
    requires n <= |chunks|
    requires forall j :: 0 <= j < n ==> Skipped(chunks[j]) || embed(chunks[j]).Some?
  {
    if n == 0 then []
    else
      StoredRows(docId, chunks, embed, write, n - 1)
      + (if Kept(chunks, embed, write, n - 1)
         then [Db.EmbeddingRow(docId, n - 1, chunks[n - 1], embed(chunks[n - 1]).value)]
         else [])
  }

  /** The rows create_embeddings(doc_id, text) adds to the embeddings table. */
  function Stored(docId: string, text: string, embed: string -> Option<Db.Vector>,
                  write: int -> Db.WriteAttempt): seq<Db.EmbeddingRow>
  {
    if IsBlank(text) then []
    else
      var chunks := GenerateEmbeddings.ChunkText(text).value;
      StoredRows(docId, chunks, embed, write, Reached(chunks, embed))
  }

  /** create_embeddings: returns at once on blank text; otherwise embeds the
      chunks in order, skips blank chunks and empty embeddings without reusing
      their index, and stops silently at the first exception. */
  method CreateEmbeddings(db: Db.Database, docId: string, text: string,
                          embed: string -> Option<Db.Vector>, write: int -> Db.WriteAttempt)
    modifies db
    ensures db.documents == old(db.documents)
    ensures db.embeddings == old(db.embeddings) + Stored(docId, text, embed, write)
  {
    if Strip(text) == [] {
      return;
    }
    var chunks := GenerateEmbeddings.ChunkText(text).value;
    EmbedChunks(db, docId, chunks, embed, write);
  }

  /** The loop of create_embeddings over the chunks of a non-blank text. */
  method EmbedChunks(db: Db.Database, docId: string, chunks: seq<string>,
                     embed: string -> Option<Db.Vector>, write: int -> Db.WriteAttempt)
    modifies db
    ensures db.documents == old(db.documents)
    ensures db.embeddings == old(db.embeddings) + StoredRows(docId, chunks, embed, write, Reached(chunks, embed))
  {
    var i := 0;
    while i < |chunks|
      invariant i <= |chunks|
      invariant forall j :: 0 <= j < i ==> Skipped(chunks[j]) || embed(chunks[j]).Some?
      invariant db.documents == old(db.documents)
      invariant db.embeddings == old(db.embeddings) + StoredRows(docId, chunks, embed, write, i)
    {
      var skip := IsSkipped(chunks[i]);
      if skip {
        StoredRowsStep(docId, chunks, embed, write, i);
        i := i + 1;
        continue;
      }
      var result := embed(chunks[i]);
      if result.None? {
        ReachedIs(chunks, embed, i);
        return;
      }
      StoredRowsStep(docId, chunks, embed, write, i);
      var embedding := result.value;
      if embedding != [] {
        db.InsertEmbedding(docId, i, chunks[i], embedding, write(i));
      }
      i := i + 1;
    }
    ReachedIs(chunks, embed, i);
  }

  /** Reached is the one position k at which every earlier chunk was skipped
      or embedded and the chunk at k, if any, is embedded and fails. */
  lemma {:induction false} ReachedIs(chunks: seq<string>, embed: string -> Option<Db.Vector>, k: nat)
    requires k <= |chunks|
    requires forall j :: 0 <= j < k ==> Skipped(chunks[j]) || embed(chunks[j]).Some?
    requires k < |chunks| ==> !Skipped(chunks[k]) && embed(chunks[k]).None?
    ensures Reached(chunks, embed) == k
    decreases k
  {
    if k > 0 {
      assert !(chunks == [] || (!Skipped(chunks[0]) && embed(chunks[0]).None?));
      var rest := chunks[1..];
      forall j | 0 <= j < k - 1 ensures Skipped(rest[j]) || embed(rest[j]).Some? {
        assert rest[j] == chunks[j + 1];
      }
      ReachedIs(rest, embed, k - 1);
    }
  }

  /** One more chunk: a skipped chunk or an empty embedding adds nothing,
      any other chunk adds its row exactly when its write lands. */
  lemma StoredRowsStep(docId: string, chunks: seq<string>, embed: string -> Option<Db.Vector>,
                       write: int -> Db.WriteAttempt, i: nat)
    requires i < |chunks|
    requires forall j :: 0 <= j <= i ==> Skipped(chunks[j]) || embed(chunks[j]).Some?
    ensures Skipped(chunks[i]) ==> StoredRows(docId, chunks, embed, write, i + 1) == StoredRows(docId, chunks, embed, write, i)
    ensures !Skipped(chunks[i]) ==>
      var v := embed(chunks[i]).value;
      StoredRows(docId, chunks, embed, write, i + 1)
      == StoredRows(docId, chunks, embed, write, i)
         + (if v != [] && Db.Lands(write(i)) then [Db.EmbeddingRow(docId, i, chunks[i], v)] else [])
  {
  }

  /** No chunk the chunker yields is blank, so the `continue` never fires. */
  lemma NoChunkSkipped(text: string)
    ensures var chunks := GenerateEmbeddings.ChunkText(text).value;
      forall i :: 0 <= i < |chunks| ==> !Skipped(chunks[i])
  {
    var chunks := GenerateEmbeddings.ChunkText(text).value;
    GenerateEmbeddings.ChunksTrimmed(Split(text), GenerateEmbeddings.DefaultChunkSize);
    forall i | 0 <= i < |chunks| ensures !Skipped(chunks[i]) {
      assert chunks[i] in chunks;
    }
  }

  /** Every stored row carries doc_id, the chunk at its index and that chunk's
      non-empty embedding; indices are strictly increasing and below n. */
  lemma {:induction false} StoredRowsShape(docId: string, chunks: seq<string>, embed: string -> Option<Db.Vector>,
                                           write: int -> Db.WriteAttempt, n: nat)
    requires n <= |chunks|
    requires forall j :: 0 <= j < n ==> Skipped(chunks[j]) || embed(chunks[j]).Some?
    ensures var rows := StoredRows(docId, chunks, embed, write, n);
      && GenerateEmbeddings.ChunkRows(rows, docId, chunks, embed, n)
      && (forall i :: 0 <= i < |rows| ==> rows[i].embedding != [])
  {
    if n > 0 {
      StoredRowsShape(docId, chunks, embed, write, n - 1);
      var prev := StoredRows(docId, chunks, embed, write, n - 1);
      assert GenerateEmbeddings.ChunkRows(prev, docId, chunks, embed, n - 1);
      var rows := StoredRows(docId, chunks, embed, write, n);
      var added := if Kept(chunks, embed, write, n - 1)
                   then [Db.EmbeddingRow(docId, n - 1, chunks[n - 1], embed(chunks[n - 1]).value)]
                   else [];
      assert rows == prev + added;
      forall i | 0 <= i < |rows|
        ensures && 0 <= rows[i].chunkIndex < n
                && rows[i].documentId == docId
                && rows[i].textChunk == chunks[rows[i].chunkIndex]
                && Some(rows[i].embedding) == embed(chunks[rows[i].chunkIndex])
                && rows[i].embedding != []
      {
        if i < |prev| {
          assert rows[i] == prev[i];
        } else {
          assert rows[i] == added[0];
        }
      }
      forall i, j | 0 <= i < j < |rows| ensures rows[i].chunkIndex < rows[j].chunkIndex {
        if j >= |prev| {
          assert rows[i] == prev[i];
          assert rows[j] == added[0];
        } else {
          assert rows[i] == prev[i] && rows[j] == prev[j];
        }
      }
    }
  }

  /** Some row carries chunk index j. */
  predicate HasIndex(rows: seq<Db.EmbeddingRow>, j: int) {
    exists i :: 0 <= i < |rows| && rows[i].chunkIndex == j
  }

  /** Index j below n appears among the stored rows exactly when chunk j is
      kept: a dropped chunk leaves a gap that later indices do not close. */
  lemma {:induction false} StoredIndexIff(docId: string, chunks: seq<string>, embed: string -> Option<Db.Vector>,
                                          write: int -> Db.WriteAttempt, n: nat, j: nat)
    requires n <= |chunks|
    requires forall j :: 0 <= j < n ==> Skipped(chunks[j]) || embed(chunks[j]).Some?
    requires j < n
    ensures HasIndex(StoredRows(docId, chunks, embed, write, n), j) <==> Kept(chunks, embed, write, j)
  {
    var rows := StoredRows(docId, chunks, embed, write, n);
    var prev := StoredRows(docId, chunks, embed, write, n - 1);
    var added := if Kept(chunks, embed, write, n - 1)
                 then [Db.EmbeddingRow(docId, n - 1, chunks[n - 1], embed(chunks[n - 1]).value)]
                 else [];
    assert rows == prev + added;
    if j == n - 1 {
      if Kept(chunks, embed, write, j) {
        assert rows[|prev|].chunkIndex == j;
      } else {
        assert rows == prev;
        StoredRowsShape(docId, chunks, embed, write, n - 1);
        assert GenerateEmbeddings.ChunkRows(prev, docId, chunks, embed, n - 1);
        assert forall i :: 0 <= i < |prev| ==> prev[i].chunkIndex < n - 1;
      }
    } else {
      StoredIndexIff(docId, chunks, embed, write, n - 1, j);
      assert forall i :: |prev| <= i < |rows| ==> rows[i] == added[i - |prev|];
      assert forall i :: |prev| <= i < |rows| ==> rows[i].chunkIndex == n - 1;
      if HasIndex(rows, j) {
        var i :| 0 <= i < |rows| && rows[i].chunkIndex == j;
        assert prev[i] == rows[i];
      }
      if HasIndex(prev, j) {
        var i :| 0 <= i < |prev| && prev[i].chunkIndex == j;
        assert rows[i] == prev[i];
      }
    }
  }

  /** Three chunks whose middle embedding comes back empty are stored under
      indices 0 and 2: index 1 is never reused. */
  lemma GapExample(docId: string, embed: string -> Option<Db.Vector>, write: int -> Db.WriteAttempt)
    requires embed("alpha") == Some([1.0]) && embed("beta") == Some([]) && embed("gamma") == Some([2.0])
    requires forall j :: Db.Lands(write(j))
    ensures var rows := StoredRows(docId, ["alpha", "beta", "gamma"], embed, write, 3);
      |rows| == 2 && rows[0].chunkIndex == 0 && rows[1].chunkIndex == 2
  {
    var chunks := ["alpha", "beta", "gamma"];
    assert !IsSpace("alpha"[0]) && !IsSpace("gamma"[0]);
    assert Kept(chunks, embed, write, 0);
    assert !Kept(chunks, embed, write, 1);
    assert Kept(chunks, embed, write, 2);
    assert StoredRows(docId, chunks, embed, write, 0) == [];
    var r1 := StoredRows(docId, chunks, embed, write, 1);
    var r2 := StoredRows(docId, chunks, embed, write, 2);
    assert r1 == [Db.EmbeddingRow(docId, 0, "alpha", [1.0])];
    assert r2 == r1;
  }

  /** If the first failing embedding call is on chunk k, only indices below k
      are stored and nothing is raised to the caller. */
  lemma StopsAtFailure(docId: string, text: string, embed: string -> Option<Db.Vector>,
                       write: int -> Db.WriteAttempt, k: nat)
    requires !IsBlank(text)
    requires var chunks := GenerateEmbeddings.ChunkText(text).value;
      && k < |chunks|
      && (forall j :: 0 <= j < k ==> embed(chunks[j]).Some?)
      && embed(chunks[k]).None?
    ensures var chunks := GenerateEmbeddings.ChunkText(text).value;
      var rows := Stored(docId, text, embed, write);
      && rows == StoredRows(docId, chunks, embed, write, k)
      && forall i :: 0 <= i < |rows| ==> rows[i].chunkIndex < k
  {
    var chunks := GenerateEmbeddings.ChunkText(text).value;
    NoChunkSkipped(text);
    assert Reached(chunks, embed) == k;
    StoredRowsShape(docId, chunks, embed, write, k);
  }

  /** Blank text returns before any embedding call or write: the outcome
      does not depend on either oracle, and nothing is stored. */
  lemma BlankTextStoresNothing(docId: string, text: string,
                               embed1: string -> Option<Db.Vector>, write1: int -> Db.WriteAttempt,
                               embed2: string -> Option<Db.Vector>, write2: int -> Db.WriteAttempt)
    requires IsBlank(text)
    ensures Stored(docId, text, embed1, write1) == Stored(docId, text, embed2, write2) == []
  {
  }

  /** Without blank chunks, and when no returned embedding is empty, the loop
      stores what the live loop of backend/generate_embeddings.py stores. */
  lemma {:induction false} SameAsLiveRows(docId: string, chunks: seq<string>, embed: string -> Option<Db.Vector>,
                                          write: int -> Db.WriteAttempt, n: nat)
    requires n <= |chunks|
    requires forall j :: 0 <= j < n ==> !Skipped(chunks[j]) && embed(chunks[j]).Some? && embed(chunks[j]).value != []
    ensures StoredRows(docId, chunks, embed, write, n) == GenerateEmbeddings.RowsFor(docId, chunks, embed, write, n)
  {
    if n > 0 {
      SameAsLiveRows(docId, chunks, embed, write, n - 1);
    }
  }

  /** Without blank chunks, both loops stop at the same chunk: the first one
      whose embedding call raises. */
  lemma {:induction false} SameStopPoint(chunks: seq<string>, embed: string -> Option<Db.Vector>)
    requires forall j :: 0 <= j < |chunks| ==> !Skipped(chunks[j])
    ensures Reached(chunks, embed) == GenerateEmbeddings.EncodedCount(chunks, embed)
    decreases |chunks|
  {
    if chunks != [] {
      SameStopPoint(chunks[1..], embed);
    }
  }

  /** When no embedding comes back empty, both ingestion loops store the same
      rows for every text. */
  lemma SameAsLive(docId: string, text: string, embed: string -> Option<Db.Vector>, write: int -> Db.WriteAttempt)
    requires forall c :: embed(c).Some? ==> embed(c).value != []
    ensures Stored(docId, text, embed, write) == GenerateEmbeddings.Ingested(docId, text, embed, write)
  {
    var chunks := GenerateEmbeddings.ChunkText(text).value;
    if IsBlank(text) {
      GenerateEmbeddings.BlankTextIngestsNothing(docId, text, embed, write);
    } else {
      NoChunkSkipped(text);
      SameStopPoint(chunks, embed);
      SameAsLiveRows(docId, chunks, embed, write, Reached(chunks, embed));
    }
  }
}
