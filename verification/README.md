# Blog semantic search: a Dafny model

A model of the two programs of a small semantic-search system over a table of
blog posts:

- **Search page** (`app.py`). It detects MBTI codes and Enneagram mentions in
  the user's query and picks at most one type filter from them. It refuses to
  search an index without embeddings. It embeds the query and ranks the
  indexed posts by similarity to it: with a filter, only posts whose title,
  text or categories contain the filter (case-insensitively) are ranked. It
  reports the top `limit` rows, or a not-found outcome naming the filter.
- **Batch indexer** (`generate_embeddings.py`). It selects the blogs that have
  no record in `blogs_embeddings`, or a record whose embedding is NULL. For
  each one in turn it embeds the title and text, cut to 8000 characters, and
  upserts the record keyed by url. A failure is counted and skipped. After
  each success except on the last item it sleeps. At the end it reports
  successful, failed and total counts.

Modules, one file each:

| file | module | contents |
|---|---|---|
| `wrappers.dfy` | `Wrappers` | `Option` |
| `text.dfy` | `Text` | ASCII case mapping, Python's whitespace and digit classes, substring search, subsequence |
| `detection.dfy` | `Detection` | `detect_personality_types`, `re.findall` for the two Enneagram patterns, filter choice |
| `detection_examples.dfy` | `DetectionExamples` | filters chosen for concrete queries |
| `store.dfy` | `Store` | the `blogs` row, the `blogs_embeddings` record, the store keyed by url |
| `retrieval.dfy` | `Retrieval` | `search_similar_blogs`, `get_stats` |
| `search.dfy` | `Search` | the Search-button handler |
| `indexing.dfy` | `Indexing` | work set, upsert, text to embed, the batch loop, `main` |

The embedding provider and the vector store's cosine distance are parameters:
`embed: string -> Vector`, and an integer score `sim: Vector -> int` for one
fixed query vector. The batch's provider calls are a sequence of replies
(`Embedded(v)` or `Failed`), one per work item. `re.findall` is modelled by
`Detection.Scan`, whose contract characterises it declaratively: every hit is
a match of the pattern (`PatternMatch`), hits are ordered and do not overlap,
and every match position not covered by an earlier hit yields a hit. That is
the leftmost, non-overlapping list of matches that `findall` returns.

## Model

| member | source | states |
|---|---|---|
| Detection.KeepOccurring | app.py:39-41 | a code is kept iff it is in the list and occurs in the upper-cased query; the kept codes keep list order |
| Detection.FirstKeptIsFirstInList | app.py:41 | the first kept code is the earliest code in list order that occurs, whatever its position in the query |
| Detection.KeptNothing | app.py:41 | no code is kept iff none occurs in the query |
| Detection.WordAt | app.py:45-46 | a number word that occurs at the position is found; none is reported only when no number word occurs there |
| Detection.NumberWordsUnambiguous | app.py:45-46 | no number word is a prefix of another, so the alternation's choice is the only one |
| Detection.NumberAt | app.py:45-46 | the number group (a digit or one of `ONE` … `NINE`) matches token `c` at `k` iff `NumberAt` returns `c` |
| Detection.SkipSpaces | app.py:45-46 | `\s*` is greedy: it stops at the first non-whitespace character or the end |
| Detection.MatchAt | app.py:45-46 | the pattern `KW\s*(group)` matches at `i` with capture `c` iff `MatchAt` returns a hit with that capture; the capture is a number token |
| Detection.DigitAfterSpaces | app.py:45-46 | after the keyword and any run of whitespace, one digit is captured alone, whatever follows it |
| Detection.Scan | app.py:50 | the hits are matches, ordered, non-overlapping, and no match position is skipped |
| Detection.HitThenRest | app.py:50 | a match followed by the scan from its end is a valid scan from the match's start: `findall` resumes at the end of each match |
| Detection.CoveredFromFirst | app.py:50 | no match lies before the first hit |
| Detection.FindAll | app.py:50 | the captures are the group captures of the scanned hits, in order; each is a digit or a number word |
| Detection.FindAllEmpty | app.py:50 | `findall` is empty iff the pattern matches nowhere |
| Detection.FindAllFirst | app.py:50 | the first capture is the capture of the leftmost match |
| Detection.DetectPersonalityTypes | app.py:34-53 | the MBTI list is exactly the codes that occur, in list order; the Enneagram list is the TYPE captures followed by the ENNEAGRAM captures |
| Detection.EnneagramFilterCases | app.py:167 | a digit capture `d` becomes `Type d`; a spelled-out capture is passed through unchanged |
| Detection.EnneagramFilter | app.py:167 | the filter ends with the capture, and is longer than it (the `Type ` prefix) exactly when the capture is all digits |
| Detection.ChooseFilter | app.py:162-168 | an MBTI code wins over an Enneagram capture; there is no filter exactly when neither list has anything |
| Detection.ChosenFilterWord | app.py:162-167 | a filter chosen from list codes and number captures is a code, a number word, or `Type ` and one digit |
| Detection.SelectFilter | app.py:160-168 | every filter the page can choose is a code, a number word, or `Type ` and one digit, so it is never empty |
| Detection.SelectFilterMbti | app.py:160-165 | if an MBTI code occurs, the filter is the first occurring code in list order |
| Detection.SelectFilterType | app.py:166-168 | with no MBTI code, the leftmost TYPE match decides the filter, even when an ENNEAGRAM match comes earlier in the query |
| Detection.SelectFilterEnneagram | app.py:166-168 | with no MBTI code and no TYPE match, the leftmost ENNEAGRAM match decides |
| Detection.SelectFilterNone | app.py:160-168 | there is no filter iff no code occurs and neither pattern matches |
| DetectionExamples.InfjExample | app.py:160-165 | "advice for INFJ relationships" filters on `INFJ` |
| DetectionExamples.ListOrderExample | app.py:39-41 | "entj or intj" filters on `INTJ`, the earlier code in list order |
| DetectionExamples.TypeFourExample | app.py:166-167 | "type 4 enneagram wing 5" filters on `Type 4` |
| DetectionExamples.TypeOneExample | app.py:167 | "type one" filters on `ONE`, not `Type 1` |
| DetectionExamples.NoSpaceExample | app.py:45 | `TYPE4` matches with capture `4` |
| DetectionExamples.ManySpacesExample | app.py:45 | `TYPE   4` matches with capture `4` |
| DetectionExamples.TwoDigitExample | app.py:45 | `TYPE 10` captures only `1` |
| Retrieval.FilterActive | app.py:57 | `if type_filter:`: a filter applies when it is present and non-empty |
| Retrieval.MatchesFilter | app.py:71 | the filter occurs, ignoring case, in the title, the text or the categories |
| Retrieval.FilterIgnoresCase | app.py:71 | a filter and its upper-cased form match the same rows |
| Retrieval.Eligible | app.py:70-71 | a row is ranked when its embedding is not NULL and, with an active filter, it matches the filter |
| Retrieval.Candidates | app.py:57-83 | one result row per eligible row: the count is the number of eligible rows, and each result row occurs as often as eligible rows project to it |
| Retrieval.Insert | app.py:81 | inserting into a ranking keeps it highest-first and adds exactly the element |
| Retrieval.SortBySimilarity | app.py:81 | `ORDER BY similarity DESC` yields a highest-first permutation of its input |
| Retrieval.SearchSimilarBlogs | app.py:55-99 | `min(limit, #eligible)` rows, highest similarity first, each from an eligible row, drawn without repetition from the candidates, and no left-out candidate scores higher than a returned one |
| Retrieval.PrefixOfSortedIsTop | app.py:81-82 | the first `limit` rows of a ranking are its top: nothing left out scores higher |
| Retrieval.AllReturnedWhenFew | app.py:82 | when no more rows are eligible than the limit, all of them are returned |
| Retrieval.NonMatchingNeverReturned | app.py:71 | with an active filter, a row that does not contain it is never returned |
| Retrieval.DrawnFromCandidates | app.py:68-71 | anything drawn from the candidates comes from an eligible row |
| Retrieval.GetStats | app.py:101-109 | the total is the row count; the embedded count is at most the total and is 0 iff every embedding is NULL |
| Retrieval.CountEmbedded | app.py:106 | `COUNT(embedding)` is at most the row count and is 0 iff all are NULL |
| Retrieval.StatsCountUnfilteredCandidates | app.py:84-106 | the embedded count equals the number of rows the unfiltered query ranks |
| Search.HandleSearch | app.py:153-208 | an empty query does nothing; no embeddings gives the refusal, with no embedding call; otherwise the query is embedded with the detected filter; not-found happens iff no row is eligible; found reports the top-limit ranking |
| Search.UnfilteredSearchFinds | app.py:153-173 | without a filter, a searchable index always yields results |
| Indexing.WorkSet | generate_embeddings.py:33-42 | a blog is selected iff its url has no record or a NULL embedding; the selection keeps the order of `blogs` |
| Indexing.Without | generate_embeddings.py:40 | a blog stays iff its url is not in the done set |
| Indexing.WorkSetAfter | generate_embeddings.py:33-42 | when exactly the done urls stop being pending, the next work set is the old one without them |
| Indexing.WithoutDonePrefix | generate_embeddings.py:89-111 | with unique urls, removing the first `n` urls leaves the rest of the list |
| Indexing.Upsert | generate_embeddings.py:44-66 | the url gets a record with all of the blog's columns and the embedding; every other record is unchanged |
| Indexing.UpsertIdempotent | generate_embeddings.py:47-56 | upserting twice is upserting once |
| Indexing.UpsertKeepsStoreConsistent | generate_embeddings.py:47-56 | records stay under their own url and the blog stops being pending |
| Indexing.TextToEmbed | generate_embeddings.py:91-95 | a prefix of `title\n\ntext`, at most 8000 characters: all of it when it fits, exactly 8000 otherwise |
| Indexing.Successes | generate_embeddings.py:102 | the success count is at most the number of items |
| Indexing.SucceededIncludes | generate_embeddings.py:99-102 | every successful item's url is in the succeeded set |
| Indexing.SucceededWitness | generate_embeddings.py:99-102 | every url in the succeeded set belongs to a successful item |
| Indexing.Applied | generate_embeddings.py:99-111 | the store after the first `k` items, each success upserted in turn: exactly the succeeded urls gain or replace a record, every other record is unchanged |
| Indexing.AppliedFrame | generate_embeddings.py:99-111 | every succeeded url ends with an embedding, and records stay under their own url |
| Indexing.AppliedLastWrite | generate_embeddings.py:100 | a url's record is the snapshot written by its last successful item |
| Indexing.AppliedPending | generate_embeddings.py:99-111 | a url is pending afterwards iff it was pending before and did not succeed |
| Indexing.BatchEffect | generate_embeddings.py:89-111 | after a whole batch, a url is pending iff it was before and did not succeed, and each url holds its last successful write |
| Indexing.RunBatch | generate_embeddings.py:86-111 | every item is attempted once in order with its truncated text; successful + failed is the item count; it sleeps after a success iff the item is not the last; only succeeded urls change, each holding its last write |
| Indexing.IndexRun | generate_embeddings.py:68-120 | an empty work set reports "all embedded" and makes no call; otherwise totals add up to the work set's size, and the next work set is the old one without the succeeded urls; when every call succeeds, the succeeded urls are all the work set's urls and the next work set is empty |
| Indexing.AllSucceeded | generate_embeddings.py:89-111 | when every item succeeds, the succeeded urls are exactly the items' urls and none is left |
| Indexing.InterruptedRun | generate_embeddings.py:89-111 | a run stopped after `n` successful items leaves exactly the rest of the work set for the next run |
| Indexing.PrefixSucceeded | generate_embeddings.py:89-111 | with unique urls, when the first `n` items all succeed, exactly their urls are done |
| Indexing.WorkSetUnique | generate_embeddings.py:33-42 | the work set inherits unique urls from `blogs` |

## Left out

- Connections, cursors, commits, `conn.close()` and the Streamlit page rendering (metrics, expanders, spinners, messages) are I/O; the model keeps only the outcome each branch produces.
- The OpenAI embedding call is the parameter `embed` (search) or a reply per item (indexing). Its model name and the vector dimension are not modelled.
- pgvector's cosine distance and floating-point similarity are an abstract integer score per stored vector. Equal scores are ranked in an order no contract fixes, as the database leaves ties unordered.
- Retrieval.MatchesFilter: ILIKE is modelled as case-insensitive substring search with ASCII case folding. `%` and `_` inside the filter are treated as literal characters, not wildcards. A detected filter never contains them.
- Text.ToUpper: Python's `str.upper` is modelled for ASCII letters only. Non-ASCII letters are left unchanged, and so are the case mappings that change length, such as `ß` to `SS`.
- Detection.NumberAt: `\d` is modelled as the ASCII digits only, whereas Python's `\d` also matches other Unicode decimal digits. `str.isdigit` is modelled the same way.
- Parsing `categories` as JSON for display, the optional GPT summaries, and the similarity percentage format are display only.
- The 0.2-second delay is recorded as whether the loop sleeps after each item, not as time.
- Indexing.RunBatch: a failed INSERT leaves the psycopg2 transaction aborted, so later writes on the same connection also fail until a rollback. The model treats each item's reply as independent.
- Indexing.TextToEmbed: title and text are modelled as strings. A NULL text renders as `None` in the f-string. A NULL title also renders as `None` there, but the progress line then slices `blog['title'][:60]` and raises `TypeError`. So such an item is counted as failed, no provider call is made, and the blog stays in every later work set. In the model that item is a `Failed` reply; the one difference is that `RunBatch` still lists its text in `sent`.
- Indexing.WorkSet: the work-set SELECT has no ORDER BY, so the database may return the blogs in any order, and a different one on each run. The model fixes the order to that of `blogs` on every run. `InterruptedRun` and `IndexRun` state the next work set as a sequence in that order; under another order only the sets of blogs agree.
- Indexing.IndexRun: the start and finish timestamps and the printed progress lines are not modelled.
- A value of `limit` outside the slider's range 1..20 cannot reach `search_similar_blogs`, so `HandleSearch` requires the range.
- A spelled-out Enneagram number (`TYPE ONE`) yields the filter `ONE`, not `Type 1`, because the code only prefixes digits. The model follows the code.
- The 0.2-second delay follows every success except on the last work item, even when the next call fails, rather than falling only between two successful calls. The model follows the code.
