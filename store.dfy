/** The `test.documents` table (backend/app/db/models.py): one row per chunk. */
module Store {
  import opened Wrappers

  /** Dimension of the `embedding` column, `Vector(1536)`. */
  const EmbeddingDim: nat := 1536

  /** An embedding as the column stores it: exactly `EmbeddingDim` numbers. The
      embedding service is modelled as always answering with this many. */
  type Embedding = v: seq<real> | |v| == EmbeddingDim witness seq(EmbeddingDim, _ => 0.0)

  /** A `Document(file_name=..., chunk=..., embedding=...)` as ingestion builds it,
      before the store assigns its `id`. */
  datatype NewRow = NewRow(fileName: string, chunk: string, embedding: Embedding)

  /** A row as the store holds it: the surrogate `id` has been assigned, and
      `file_name` is a nullable column. */
  datatype StoredRow = StoredRow(id: int, fileName: Option<string>, chunk: string, embedding: Embedding)
}
