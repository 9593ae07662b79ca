/** The two tables the system works on: `blogs`, filled by an external
    ingester, and `blogs_embeddings`, the derived index keyed by `url`. */
module Store {
  import opened Wrappers

  type Url = string

  /** An embedding vector. The provider's floating-point components are
      kept abstract: the model only compares similarity scores derived from
      vectors, never the components themselves. */
  type Vector = seq<int>

  /** A row of `blogs`: the source document. `categories` is the serialized
      (JSON) category list, kept as text as the table stores it. */
  datatype Blog = Blog(
    url: Url,
    title: string,
    text: string,
    categories: string,
    rssContent: string,
    date: Option<string>)

  /** A row of `blogs_embeddings`: a snapshot of the blog's columns plus its
      embedding, which may be NULL. */
  datatype Record = Record(
    url: Url,
    rssContent: string,
    categories: string,
    title: string,
    text: string,
    date: Option<string>,
    embedding: Option<Vector>)

  /** `blogs_embeddings` keyed by its primary key: at most one record per url. */
  type EmbeddingStore = map<Url, Record>

  /** Every record sits under its own url. */
  ghost predicate WellKeyed(store: EmbeddingStore) {
    forall u :: u in store ==> store[u].url == u
  }

  /** The url has no record, or its record's embedding is NULL: the
      condition `be.url IS NULL OR be.embedding IS NULL` of the left join. */
  predicate Pending(store: EmbeddingStore, u: Url) {
    u !in store || store[u].embedding.None?
  }
}
