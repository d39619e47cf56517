/** Nearest-neighbour retrieval over the document table
    (backend/app/rag/retriever.py): embed the query, run
    `ORDER BY embedding <=> q LIMIT top_k`, and map each row to a `Document`. */
module Retriever {
  import opened Wrappers
  import opened Store

  /** One row of the query's result: `id, file_name, chunk, distance`. */
  datatype Hit = Hit(id: int, fileName: Option<string>, chunk: string, distance: real)

  /** pgvector's `<=>` between a stored embedding and the query embedding; lower
      is nearer. */
  type Distance = (Embedding, Embedding) -> real

  /** The embedding service's `embed_query`; `None` when it raises. */
  type Embedder = string -> Option<Embedding>

  /** `metadata={"id": ..., "file_name": ..., "distance": ...}`: exactly these three keys. */
  datatype Metadata = Metadata(id: int, fileName: Option<string>, distance: real)

  /** LangChain's `Document(page_content=..., metadata=...)`. */
  datatype Document = Document(pageContent: string, metadata: Metadata)

  /** Why `get_relevant_information` raises instead of returning. */
  datatype RetrievalError =
    | EmbeddingFailed   // `embed_query` raised
    | NegativeLimit     // PostgreSQL refuses `LIMIT` below zero

  /** Every row of the table with its distance to the query. */
  function Score(table: seq<StoredRow>, q: Embedding, dist: Distance): (r: seq<Hit>)
    ensures |r| == |table|
  {
    seq(|table|, i requires 0 <= i < |table| =>
      Hit(table[i].id, table[i].fileName, table[i].chunk, dist(table[i].embedding, q)))
  }

  predicate SortedByDistance(hs: seq<Hit>) {
    forall i, j :: 0 <= i < j < |hs| ==> hs[i].distance <= hs[j].distance
  }

  /** Insert `h` before the first element that is not nearer than it. */
  function Insert(h: Hit, sorted: seq<Hit>): seq<Hit>
    decreases |sorted|
  {
    if sorted == [] then [h]
    else if h.distance <= sorted[0].distance then [h] + sorted
    else [sorted[0]] + Insert(h, sorted[1..])
  }

  /** `ORDER BY distance`: a stable insertion sort. The query fixes no order among
      ties; this model takes the table's. */
  function SortByDistance(hs: seq<Hit>): seq<Hit>
    decreases |hs|
  {
    if hs == [] then [] else Insert(hs[0], SortByDistance(hs[1..]))
  }

  /** The rows `SELECT ... ORDER BY embedding <=> q LIMIT limit` returns. */
  function Knn(table: seq<StoredRow>, q: Embedding, dist: Distance, limit: nat): seq<Hit> {
    var sorted := SortByDistance(Score(table, q, dist));
    sorted[..Min(limit, |sorted|)]
  }

  lemma {:induction false} InsertPerm(h: Hit, sorted: seq<Hit>)
    ensures multiset(Insert(h, sorted)) == multiset(sorted) + multiset{h}
    decreases |sorted|
  {
    if sorted != [] && h.distance > sorted[0].distance {
      InsertPerm(h, sorted[1..]);
      assert sorted == [sorted[0]] + sorted[1..];
    }
  }

  lemma {:induction false} InsertSortedPerm(h: Hit, sorted: seq<Hit>)
    requires SortedByDistance(sorted)
    ensures SortedByDistance(Insert(h, sorted))
    ensures multiset(Insert(h, sorted)) == multiset(sorted) + multiset{h}
    decreases |sorted|
  {
    InsertPerm(h, sorted);
    if sorted != [] && h.distance > sorted[0].distance {
      var rest := Insert(h, sorted[1..]);
      InsertSortedPerm(h, sorted[1..]);
      forall k | 0 <= k < |rest| ensures sorted[0].distance <= rest[k].distance {
        assert rest[k] in multiset(rest);
        assert rest[k] == h || rest[k] in multiset(sorted[1..]);
        if rest[k] != h {
          var m :| 0 <= m < |sorted[1..]| && sorted[1..][m] == rest[k];
          assert sorted[m + 1] == rest[k];
        }
      }
    }
  }

  lemma {:induction false} SortPerm(hs: seq<Hit>)
    ensures multiset(SortByDistance(hs)) == multiset(hs)
    decreases |hs|
  {
    if hs != [] {
      SortPerm(hs[1..]);
      InsertPerm(hs[0], SortByDistance(hs[1..]));
      assert hs == [hs[0]] + hs[1..];
    }
  }

  lemma {:induction false} SortSorted(hs: seq<Hit>)
    ensures SortedByDistance(SortByDistance(hs))
    decreases |hs|
  {
    if hs != [] {
      SortSorted(hs[1..]);
      InsertSortedPerm(hs[0], SortByDistance(hs[1..]));
    }
  }

  /** The sort orders by distance and keeps every row exactly once. */
  lemma SortSortedPerm(hs: seq<Hit>)
    ensures SortedByDistance(SortByDistance(hs))
    ensures multiset(SortByDistance(hs)) == multiset(hs)
  {
    SortSorted(hs);
    SortPerm(hs);
  }

  /** What `ORDER BY ... LIMIT k` promises: min(k, M) rows of the table, in
      non-decreasing distance order, each table row at most once, and none of the
      rows left out nearer than a row returned. */
  lemma KnnIsNearest(table: seq<StoredRow>, q: Embedding, dist: Distance, limit: nat)
    ensures var rows := Knn(table, q, dist, limit);
            var all := Score(table, q, dist);
            && |rows| == Min(limit, |table|)
            && SortedByDistance(rows)
            && multiset(rows) <= multiset(all)
            && forall x, y :: x in rows && y in multiset(all) - multiset(rows) ==> x.distance <= y.distance
  {
    var all := Score(table, q, dist);
    var sorted := SortByDistance(all);
    SortSortedPerm(all);
    assert |sorted| == |all| by {
      assert |multiset(sorted)| == |multiset(all)|;
    }
    PrefixIsNearest(sorted, Min(limit, |sorted|));
  }

  /** The first `n` rows of a sorted list are nearer than all the others. */
  lemma PrefixIsNearest(sorted: seq<Hit>, n: nat)
    requires SortedByDistance(sorted) && n <= |sorted|
    ensures multiset(sorted[..n]) <= multiset(sorted)
    ensures forall x, y :: x in sorted[..n] && y in multiset(sorted) - multiset(sorted[..n]) ==> x.distance <= y.distance
  {
    var rows := sorted[..n];
    assert sorted == rows + sorted[n..];
    assert multiset(sorted) == multiset(rows) + multiset(sorted[n..]);
    forall x, y | x in rows && y in multiset(sorted) - multiset(rows)
      ensures x.distance <= y.distance
    {
      assert y in multiset(sorted[n..]);
      var a :| 0 <= a < n && rows[a] == x;
      var b :| 0 <= b < |sorted| - n && sorted[n..][b] == y;
      assert sorted[a] == x && sorted[n + b] == y;
    }
  }

  /** `Document(page_content=row.chunk, metadata={...})`. */
  function ToDocument(h: Hit): Document {
    Document(h.chunk, Metadata(h.id, h.fileName, h.distance))
  }

  function ToDocuments(rows: seq<Hit>): (docs: seq<Document>)
    ensures |docs| == |rows|
  {
    seq(|rows|, i requires 0 <= i < |rows| => ToDocument(rows[i]))
  }

  /** What `get_relevant_information(query)` returns, or why it raises, for a
      retriever built with `embeddings` and `top_k` over the table's rows. */
  function Retrieve(embeddings: Embedder, topK: int, query: string, table: seq<StoredRow>, dist: Distance)
    : Result<seq<Document>, RetrievalError>
  {
    match embeddings(query)
    case None => Failure(EmbeddingFailed)
    case Some(q) =>
      if topK < 0 then Failure(NegativeLimit)
      else Success(ToDocuments(Knn(table, q, dist, topK)))
  }

  /** A successful lookup returns min(top_k, M) documents, nearest first; the
      i-th comes from the i-th returned row, with `page_content` its chunk and
      metadata its id, file name and distance. Errors: the embedding call first,
      then the limit. */
  lemma RetrieveShape(embeddings: Embedder, topK: int, query: string, table: seq<StoredRow>, dist: Distance)
    ensures var r := Retrieve(embeddings, topK, query, table, dist);
            && (embeddings(query).None? <==> r == Failure(EmbeddingFailed))
            && (embeddings(query).Some? && topK < 0 <==> r == Failure(NegativeLimit))
            && (r.Success? ==>
                  var q := embeddings(query).value;
                  var rows := Knn(table, q, dist, topK);
                  && |r.value| == Min(topK, |table|)
                  && (forall i, j :: 0 <= i < j < |r.value| ==>
                        r.value[i].metadata.distance <= r.value[j].metadata.distance)
                  && forall i :: 0 <= i < |r.value| ==>
                       && r.value[i].pageContent == rows[i].chunk
                       && r.value[i].metadata == Metadata(rows[i].id, rows[i].fileName, rows[i].distance)
                       && rows[i] in Score(table, q, dist))
  {
    if embeddings(query).Some? && topK >= 0 {
      var q := embeddings(query).value;
      KnnIsNearest(table, q, dist, topK);
      var rows := Knn(table, q, dist, topK);
      forall i | 0 <= i < |rows| ensures rows[i] in Score(table, q, dist) {
        assert rows[i] in multiset(rows);
      }
    }
  }

  /** Every document returned is a row of the table, its fields copied unchanged. */
  lemma RetrievedFromTable(embeddings: Embedder, topK: int, query: string, table: seq<StoredRow>, dist: Distance, i: nat)
    requires Retrieve(embeddings, topK, query, table, dist).Success?
    requires i < |Retrieve(embeddings, topK, query, table, dist).value|
    ensures var d := Retrieve(embeddings, topK, query, table, dist).value[i];
            exists j :: && 0 <= j < |table|
              && d.pageContent == table[j].chunk
              && d.metadata.id == table[j].id
              && d.metadata.fileName == table[j].fileName
              && d.metadata.distance == dist(table[j].embedding, embeddings(query).value)
  {
    RetrieveShape(embeddings, topK, query, table, dist);
    var q := embeddings(query).value;
    var rows := Knn(table, q, dist, topK);
    var all := Score(table, q, dist);
    var j :| 0 <= j < |all| && all[j] == rows[i];
  }

  /** `PgVectorRetriever`: both fields are set once, by the constructor, and it
      keeps no other state. */
  class PgVectorRetriever {
    const embeddings: Embedder
    const topK: int

    constructor (embeddings: Embedder, topK: int := 10)
      ensures this.embeddings == embeddings && this.topK == topK
    {
      this.embeddings := embeddings;
      this.topK := topK;
    }

    /** `get_relevant_information(query)` against the rows `table` holds; it only
        reads them. */
    method GetRelevantInformation(query: string, table: seq<StoredRow>, dist: Distance)
      returns (r: Result<seq<Document>, RetrievalError>)
      ensures r == Retrieve(embeddings, topK, query, table, dist)
    {
      var q := embeddings(query);
      if q.None? {
        return Failure(EmbeddingFailed);
      }
      if topK < 0 {
        return Failure(NegativeLimit);
      }
      var rows := Knn(table, q.value, dist, topK);
      var docs := [];
      for i := 0 to |rows|
        invariant docs == ToDocuments(rows[..i])
      {
        docs := docs + [Document(rows[i].chunk, Metadata(rows[i].id, rows[i].fileName, rows[i].distance))];
      }
      assert rows[..|rows|] == rows;
      r := Success(docs);
    }
  }
}
