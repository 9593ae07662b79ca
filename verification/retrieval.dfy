/** The two similarity queries of `search_similar_blogs` and the counts of
    `get_stats` (app.py), over the rows of `blogs_embeddings` in table order.
    The query vector is fixed for one search, so the cosine similarity of a
    row is modelled as an abstract integer score `sim(embedding)`; ordering
    by `embedding <=> q` ascending is ordering by `1 - (embedding <=> q)`
    descending, which is what both queries do. */
module Retrieval {
  import opened Wrappers
  import opened Text
  import opened Store

  /** A result row: the selected columns plus the similarity. */
  datatype Scored = Scored(
    url: Url,
    title: string,
    text: string,
    categories: string,
    date: Option<string>,
    similarity: int)

  /** Python's `if type_filter:`: a filter applies when present and non-empty. */
  predicate FilterActive(filter: Option<string>) {
    filter.Some? && |filter.value| > 0
  }

  /** `title ILIKE '%f%' OR text ILIKE '%f%' OR categories ILIKE '%f%'`. */
  predicate MatchesFilter(r: Record, f: string) {
    ContainsIgnoreCase(r.title, f) || ContainsIgnoreCase(r.text, f)
    || ContainsIgnoreCase(r.categories, f)
  }

  /** ILIKE ignores the case of the pattern too: a filter and its upper-cased
      form match the same rows. */
  lemma FilterIgnoresCase(r: Record, f: string)
    ensures MatchesFilter(r, f) <==> MatchesFilter(r, ToUpper(f))
  {
    LowerOfUpper(f);
  }

  /** The WHERE clause of the query the filter selects. */
  predicate Eligible(r: Record, filter: Option<string>) {
    r.embedding.Some? && (FilterActive(filter) ==> MatchesFilter(r, filter.value))
  }

  function ScoreOf(r: Record, sim: Vector -> int): Scored
    requires r.embedding.Some?
  {
    Scored(r.url, r.title, r.text, r.categories, r.date, sim(r.embedding.value))
  }

  /** The number of rows the WHERE clause keeps. */
  function EligibleCount(rows: seq<Record>, filter: Option<string>): nat {
    if |rows| == 0 then 0
    else (if Eligible(rows[0], filter) then 1 else 0) + EligibleCount(rows[1..], filter)
  }

  /** The number of rows the WHERE clause keeps whose result row is `x`. */
  function EligibleCopies(rows: seq<Record>, filter: Option<string>, sim: Vector -> int, x: Scored): nat {
    if |rows| == 0 then 0
    else (if Eligible(rows[0], filter) && ScoreOf(rows[0], sim) == x then 1 else 0)
         + EligibleCopies(rows[1..], filter, sim, x)
  }

  /** The rows the WHERE clause keeps, scored, in table order: one result row
      per eligible row, each as often as eligible rows project to it. */
  function Candidates(rows: seq<Record>, filter: Option<string>, sim: Vector -> int): (cs: seq<Scored>)
    ensures |cs| == EligibleCount(rows, filter) <= |rows|
    ensures forall x :: multiset(cs)[x] == EligibleCopies(rows, filter, sim, x)
    ensures forall x :: x in cs ==> exists r :: r in rows && Eligible(r, filter) && x == ScoreOf(r, sim)
    ensures forall r :: r in rows && Eligible(r, filter) ==> ScoreOf(r, sim) in cs
  {
    if |rows| == 0 then []
    else
      var rest := Candidates(rows[1..], filter, sim);
      assert forall r :: r in rows[1..] ==> r in rows;
      if Eligible(rows[0], filter) then [ScoreOf(rows[0], sim)] + rest else rest
  }

  /** Highest similarity first. */
  predicate SortedBySimilarity(xs: seq<Scored>) {
    forall i, j :: 0 <= i < j < |xs| ==> xs[i].similarity >= xs[j].similarity
  }

  /** Putting an element that scores at least as high as everything in a
      sorted sequence in front of it keeps it sorted. */
  lemma ConsSorted(h: Scored, rest: seq<Scored>)
    requires SortedBySimilarity(rest)
    requires forall y :: y in rest ==> y.similarity <= h.similarity
    ensures SortedBySimilarity([h] + rest)
  {
    var r := [h] + rest;
    forall i, j | 0 <= i < j < |r| ensures r[i].similarity >= r[j].similarity {
      assert r[j] == rest[j - 1];
      if i > 0 {
        assert r[i] == rest[i - 1];
      } else {
        assert r[j] in rest;
      }
    }
  }

  function Insert(x: Scored, xs: seq<Scored>): (r: seq<Scored>)
    requires SortedBySimilarity(xs)
    ensures SortedBySimilarity(r)
    ensures multiset(r) == multiset(xs) + multiset{x}
  {
    if |xs| == 0 then [x]
    else if x.similarity >= xs[0].similarity then
      assert forall y :: y in xs ==> y.similarity <= xs[0].similarity;
      ConsSorted(x, xs);
      [x] + xs
    else
      var rest := Insert(x, xs[1..]);
      HeadThenInserted(x, xs, rest);
      [xs[0]] + rest
  }

  /** When `x` scores below the head of a sorted sequence, the head followed
      by `x` inserted into the tail is sorted and holds `x` and the sequence. */
  lemma HeadThenInserted(x: Scored, xs: seq<Scored>, rest: seq<Scored>)
    requires SortedBySimilarity(xs) && |xs| > 0 && x.similarity < xs[0].similarity
    requires SortedBySimilarity(rest) && multiset(rest) == multiset(xs[1..]) + multiset{x}
    ensures SortedBySimilarity([xs[0]] + rest)
    ensures multiset([xs[0]] + rest) == multiset(xs) + multiset{x}
  {
    assert xs == [xs[0]] + xs[1..];
    forall y | y in rest ensures y.similarity <= xs[0].similarity {
      assert y in multiset(rest);
      assert y == x || y in multiset(xs[1..]);
    }
    ConsSorted(xs[0], rest);
  }

  /** `ORDER BY similarity DESC`. Ties are left in an order the contract does
      not fix, as the database leaves them. */
  function SortBySimilarity(xs: seq<Scored>): (r: seq<Scored>)
    ensures SortedBySimilarity(r)
    ensures multiset(r) == multiset(xs)
  {
    if |xs| == 0 then []
    else
      assert xs == [xs[0]] + xs[1..];
      Insert(xs[0], SortBySimilarity(xs[1..]))
  }

  function Min(a: int, b: int): int {
    if a <= b then a else b
  }

  /** `search_similar_blogs`: with an active filter, only rows that contain
      the filter case-insensitively in title, text or categories are ranked;
      without one, every row with an embedding is. The result is the top
      `limit` of the ranking. */
  function SearchSimilarBlogs(rows: seq<Record>, sim: Vector -> int, limit: nat, filter: Option<string>)
    : (r: seq<Scored>)
    ensures |r| == Min(limit, |Candidates(rows, filter, sim)|)
    ensures SortedBySimilarity(r)
    ensures forall x :: x in r ==> exists row :: row in rows && Eligible(row, filter) && x == ScoreOf(row, sim)
    ensures multiset(r) <= multiset(Candidates(rows, filter, sim))
    ensures ScoresNoHigher(multiset(Candidates(rows, filter, sim)) - multiset(r), r)
  {
    var cs := Candidates(rows, filter, sim);
    var sorted := SortBySimilarity(cs);
    var n := Min(limit, |sorted|);
    PrefixOfSortedIsTop(sorted, n);
    DrawnFromCandidates(rows, filter, sim, sorted[..n]);
    sorted[..n]
  }

  /** Everything in `left` scores no higher than anything in `kept`. */
  ghost predicate ScoresNoHigher(left: multiset<Scored>, kept: seq<Scored>) {
    forall x, y :: x in left && y in kept ==> x.similarity <= y.similarity
  }

  /** A prefix of a sorted sequence is its top: whatever is left out scores no
      higher than anything kept. */
  lemma PrefixOfSortedIsTop(sorted: seq<Scored>, n: nat)
    requires SortedBySimilarity(sorted) && n <= |sorted|
    ensures multiset(sorted[..n]) <= multiset(sorted)
    ensures ScoresNoHigher(multiset(sorted) - multiset(sorted[..n]), sorted[..n])
  {
    assert sorted == sorted[..n] + sorted[n..];
    assert multiset(sorted) == multiset(sorted[..n]) + multiset(sorted[n..]);
    forall x, y | x in multiset(sorted) - multiset(sorted[..n]) && y in sorted[..n]
      ensures x.similarity <= y.similarity
    {
      assert x in multiset(sorted[n..]);
      assert x in sorted[n..];
    }
  }

  /** When no more rows are eligible than the limit, all of them are returned. */
  lemma AllReturnedWhenFew(rows: seq<Record>, sim: Vector -> int, limit: nat, filter: Option<string>)
    requires |Candidates(rows, filter, sim)| <= limit
    ensures multiset(SearchSimilarBlogs(rows, sim, limit, filter)) == multiset(Candidates(rows, filter, sim))
  {
    var a := multiset(SearchSimilarBlogs(rows, sim, limit, filter));
    var b := multiset(Candidates(rows, filter, sim));
    assert b == a + (b - a);
    assert |b - a| == 0;
  }

  /** With an active filter, a row that does not contain the filter is never
      returned, however high its similarity. */
  lemma NonMatchingNeverReturned(rows: seq<Record>, sim: Vector -> int, limit: nat, f: string, row: Record)
    requires |f| > 0 && row.embedding.Some? && !MatchesFilter(row, f)
    ensures ScoreOf(row, sim) !in SearchSimilarBlogs(rows, sim, limit, Some(f))
  {
  }

  /** Whatever is drawn from the candidates comes from an eligible row. */
  lemma DrawnFromCandidates(rows: seq<Record>, filter: Option<string>, sim: Vector -> int, r: seq<Scored>)
    requires multiset(r) <= multiset(Candidates(rows, filter, sim))
    ensures forall x :: x in r ==> exists row :: row in rows && Eligible(row, filter) && x == ScoreOf(row, sim)
  {
    var cs := Candidates(rows, filter, sim);
    forall x | x in r ensures x in cs {
      assert x in multiset(r);
    }
  }

  datatype Stats = Stats(totalBlogs: nat, blogsWithEmbeddings: nat)

  /** `COUNT(embedding)`: the rows whose embedding is not NULL. It is at most
      the row count, and zero exactly when every embedding is NULL. */
  function CountEmbedded(rows: seq<Record>): (n: nat)
    ensures n <= |rows|
    ensures n == 0 <==> forall r :: r in rows ==> r.embedding.None?
  {
    if |rows| == 0 then 0
    else
      assert forall r :: r in rows ==> r == rows[0] || r in rows[1..];
      (if rows[0].embedding.Some? then 1 else 0) + CountEmbedded(rows[1..])
  }

  /** `get_stats`: all rows, and those with an embedding. */
  function GetStats(rows: seq<Record>): (s: Stats)
    ensures s.totalBlogs == |rows|
    ensures s.blogsWithEmbeddings <= s.totalBlogs
    ensures s.blogsWithEmbeddings == 0 <==> forall r :: r in rows ==> r.embedding.None?
  {
    Stats(|rows|, CountEmbedded(rows))
  }

  /** The embedded-row count is the number of rows the unfiltered query ranks. */
  lemma {:induction false} StatsCountUnfilteredCandidates(rows: seq<Record>, sim: Vector -> int)
    ensures GetStats(rows).blogsWithEmbeddings == |Candidates(rows, None, sim)|
  {
    if |rows| > 0 {
      StatsCountUnfilteredCandidates(rows[1..], sim);
    }
  }
}
