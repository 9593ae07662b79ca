/** The search handler of the Streamlit page (app.py, lines run when the
    Search button is pressed), with the page rendering left out: it refuses
    to search an index without embeddings, detects the type filter, embeds
    the query and reports the ranked rows or a not-found outcome naming the
    filter. */
module Search {
  import opened Wrappers
  import opened Store
  import opened Detection
  import opened Retrieval

  datatype Outcome =
    | Idle                                          // button not pressed with a non-empty query
    | NoEmbeddings                                  // "No embeddings available"
    | NotFound(filter: Option<string>)              // "No articles found matching '<filter>'"
    | Found(filter: Option<string>, results: seq<Scored>)

  /** The outcome, and whether the embedding provider was asked to embed the query. */
  datatype Response = Response(outcome: Outcome, queryEmbedded: bool)

  /** The similarity of each stored vector to the query vector `qv`. */
  function ScoreAgainst(qv: Vector, similarity: (Vector, Vector) -> int): Vector -> int {
    v => similarity(qv, v)
  }

  /** One search: `embed` stands for the embedding provider and `similarity`
      for the store's `1 - (a <=> b)`. `limit` is the slider's value. */
  function HandleSearch(query: string, limit: nat, rows: seq<Record>,
                        embed: string -> Vector, similarity: (Vector, Vector) -> int): (resp: Response)
    requires 1 <= limit <= 20
    ensures |query| == 0 ==> resp == Response(Idle, false)
    ensures |query| > 0 && GetStats(rows).blogsWithEmbeddings == 0 ==> resp == Response(NoEmbeddings, false)
    ensures |query| > 0 && GetStats(rows).blogsWithEmbeddings > 0 ==>
      && resp.queryEmbedded
      && (resp.outcome.NotFound? || resp.outcome.Found?)
      && resp.outcome.filter == SelectFilter(query)
    ensures resp.queryEmbedded ==>
      (resp.outcome.NotFound? <==>
         |Candidates(rows, SelectFilter(query), ScoreAgainst(embed(query), similarity))| == 0)
    ensures resp.outcome.Found? ==>
      && |resp.outcome.results| > 0
      && resp.outcome.results == SearchSimilarBlogs(rows, ScoreAgainst(embed(query), similarity), limit, SelectFilter(query))
  {
    if |query| == 0 then Response(Idle, false)
    else if GetStats(rows).blogsWithEmbeddings == 0 then Response(NoEmbeddings, false)
    else
      var filter := SelectFilter(query);
      var sim := ScoreAgainst(embed(query), similarity);
      var results := SearchSimilarBlogs(rows, sim, limit, filter);
      if |results| > 0 then Response(Found(filter, results), true)
      else Response(NotFound(filter), true)
  }

  /** Without a type filter a searchable index always yields results: the
      not-found outcome only ever reports an active filter. */
  lemma UnfilteredSearchFinds(query: string, limit: nat, rows: seq<Record>,
                              embed: string -> Vector, similarity: (Vector, Vector) -> int)
    requires 1 <= limit <= 20 && |query| > 0
    requires GetStats(rows).blogsWithEmbeddings > 0 && SelectFilter(query).None?
    ensures HandleSearch(query, limit, rows, embed, similarity).outcome.Found?
  {
    StatsCountUnfilteredCandidates(rows, ScoreAgainst(embed(query), similarity));
  }
}
