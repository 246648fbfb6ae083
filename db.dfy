/** backend/db.py: the two MySQL tables the core writes, seen as an
    append-only store. Each insert opens its own connection; whether that
    connection is obtained and whether the INSERT commits is decided by the
    outside world and enters every call as a WriteAttempt. */
module Db {
  import opened Wrappers

  /** An embedding vector; json.dumps / json.loads round-trip it unchanged. */
  type Vector = seq<real>

  /** A row of the documents table (its AUTO_INCREMENT id is not modelled). */
  datatype DocumentRow = DocumentRow(docId: string, content: string)

  /** A row of the embeddings table (its AUTO_INCREMENT id is not modelled). */
  datatype EmbeddingRow = EmbeddingRow(documentId: string, chunkIndex: int, textChunk: string, embedding: Vector)

  /** What one call of mysql.connector.connect did. */
  datatype ConnectAttempt =
    | ConnectError               // it raised mysql.connector.Error
    | Opened(isConnected: bool)  // it returned a connection whose is_connected() gave this

  /** An open connection. */
  datatype Connection = Connection

  /** get_connection: the connection when it is up, None when connecting raised
      a MySQL error or the connection reports itself down; it never raises. */
  function GetConnection(attempt: ConnectAttempt): (conn: Option<Connection>)
    ensures conn.Some? <==> attempt == Opened(true)
  {
    match attempt
    case Opened(true) => Some(Connection)
    case _ => None
  }

  /** The outside world's part in one insert call: how connecting went, and
      whether the CREATE TABLE / INSERT / commit inside the try went through. */
  datatype WriteAttempt = WriteAttempt(connect: ConnectAttempt, commits: bool)

  /** The row of one insert call reaches its table. */
  predicate Lands(w: WriteAttempt) {
    GetConnection(w.connect).Some? && w.commits
  }

  /** The two tables. Rows are only ever appended; no key is unique. */
  class Database {
    var documents: seq<DocumentRow>
    var embeddings: seq<EmbeddingRow>

    constructor ()
      ensures documents == [] && embeddings == []
    {
      documents := [];
      embeddings := [];
    }

    /** insert_document: appends (doc_id, content) when the write lands; a
        missing connection or a failing statement leaves both tables as they
        were and is not reported to the caller. */
    method InsertDocument(docId: string, text: string, w: WriteAttempt)
      modifies this
      ensures embeddings == old(embeddings)
      ensures documents == old(documents) + (if Lands(w) then [DocumentRow(docId, text)] else [])
    {
      var conn := GetConnection(w.connect);
      if conn.None? {
        return;
      }
      if w.commits {
        documents := documents + [DocumentRow(docId, text)];
      }
    }

    /** insert_embedding: appends one row when the write lands, without
        looking at the rows already there; otherwise nothing changes and
        nothing is reported. */
    method InsertEmbedding(documentId: string, chunkIndex: int, textChunk: string, embedding: Vector, w: WriteAttempt)
      modifies this
      ensures documents == old(documents)
      ensures embeddings == old(embeddings) + (if Lands(w) then [EmbeddingRow(documentId, chunkIndex, textChunk, embedding)] else [])
    {
      var conn := GetConnection(w.connect);
      if conn.None? {
        return;
      }
      if w.commits {
        embeddings := embeddings + [EmbeddingRow(documentId, chunkIndex, textChunk, embedding)];
      }
    }
  }

  /** Two inserts of the same (document_id, chunk_index) both stay in the
      table: there is no uniqueness check and no upsert. */
  method DuplicateInsertsCoexist(documentId: string, chunkIndex: int, textChunk: string, embedding: Vector)
    returns (rows: seq<EmbeddingRow>)
    ensures |rows| == 2
    ensures rows[0] == rows[1] == EmbeddingRow(documentId, chunkIndex, textChunk, embedding)
  {
    var db := new Database();
    var up := WriteAttempt(Opened(true), true);
    db.InsertEmbedding(documentId, chunkIndex, textChunk, embedding, up);
    db.InsertEmbedding(documentId, chunkIndex, textChunk, embedding, up);
    rows := db.embeddings;
  }
}
