/** The batch job of generate_embeddings.py: select the blogs that still need
    an embedding, embed each one, and upsert it into `blogs_embeddings`.
    The embedding provider is replaced by a sequence of replies, one per item
    in processing order; a reply `Failed` stands for any exception raised
    while embedding or writing that item, after which the item is not
    written. */
module Indexing {
  import opened Wrappers
  import opened Text
  import opened Store

  // ---------------------------------------------------------------------------
  // Work set

  /** `get_blogs_needing_embeddings`: the blogs whose url has no record or
      whose record has a NULL embedding, in the order of `blogs`. */
  function WorkSet(blogs: seq<Blog>, store: EmbeddingStore): (w: seq<Blog>)
    ensures forall b :: b in w <==> b in blogs && Pending(store, b.url)
    ensures IsSubsequence(w, blogs)
  {
    if |blogs| == 0 then []
    else
      var rest := WorkSet(blogs[1..], store);
      if Pending(store, blogs[0].url) then
        assert ([blogs[0]] + rest)[1..] == rest;
        [blogs[0]] + rest
      else rest
  }

  /** The blogs of `w` whose url is not in `done`, in order. */
  function Without(w: seq<Blog>, done: set<Url>): (r: seq<Blog>)
    ensures forall b :: b in r <==> b in w && b.url !in done
  {
    if |w| == 0 then []
    else (if w[0].url in done then [] else [w[0]]) + Without(w[1..], done)
  }

  /** If exactly the urls of `done` stopped being pending, recomputing the work
      set drops exactly the blogs with those urls and keeps the order. */
  lemma {:induction false} WorkSetAfter(blogs: seq<Blog>, s: EmbeddingStore, s': EmbeddingStore, done: set<Url>)
    requires forall u :: Pending(s', u) <==> Pending(s, u) && u !in done
    ensures WorkSet(blogs, s') == Without(WorkSet(blogs, s), done)
  {
    if |blogs| > 0 {
      WorkSetAfter(blogs[1..], s, s', done);
      var w := WorkSet(blogs, s);
      if Pending(s, blogs[0].url) {
        assert w == [blogs[0]] + WorkSet(blogs[1..], s);
        assert w[1..] == WorkSet(blogs[1..], s);
      }
    }
  }

  predicate UniqueUrls(blogs: seq<Blog>) {
    forall i, j :: 0 <= i < j < |blogs| ==> blogs[i].url != blogs[j].url
  }

  function Urls(w: seq<Blog>): (us: set<Url>)
    ensures forall u :: u in us <==> exists b :: b in w && b.url == u
  {
    set b | b in w :: b.url
  }

  /** Removing the urls of the first `n` blogs of a list without repeated
      urls leaves the rest of the list. */
  lemma {:induction false} WithoutDonePrefix(w: seq<Blog>, done: set<Url>, n: nat)
    requires n <= |w|
    requires forall i :: 0 <= i < n ==> w[i].url in done
    requires forall i :: n <= i < |w| ==> w[i].url !in done
    ensures Without(w, done) == w[n..]
  {
    if |w| > 0 {
      if n > 0 {
        WithoutDonePrefix(w[1..], done, n - 1);
      } else {
        WithoutDonePrefix(w[1..], done, 0);
        assert w == [w[0]] + w[1..];
      }
    }
  }

  // ---------------------------------------------------------------------------
  // Upsert

  /** `insert_blog_with_embedding`: INSERT ... ON CONFLICT (url) DO UPDATE,
      overwriting every non-key column. */
  function Upsert(store: EmbeddingStore, b: Blog, v: Vector): (r: EmbeddingStore)
    ensures r.Keys == store.Keys + {b.url}
    ensures var rec := r[b.url];
      && rec.url == b.url && rec.rssContent == b.rssContent && rec.categories == b.categories
      && rec.title == b.title && rec.text == b.text && rec.date == b.date
      && rec.embedding == Some(v)
    ensures forall u :: u in store && u != b.url ==> r[u] == store[u]
  {
    store[b.url := Record(b.url, b.rssContent, b.categories, b.title, b.text, b.date, Some(v))]
  }

  /** Upserting the same blog and embedding twice is upserting it once. */
  lemma UpsertIdempotent(store: EmbeddingStore, b: Blog, v: Vector)
    ensures Upsert(Upsert(store, b, v), b, v) == Upsert(store, b, v)
  {
  }

  /** An upsert keeps every record under its own url and leaves the blog's
      url with a non-NULL embedding. */
  lemma UpsertKeepsStoreConsistent(store: EmbeddingStore, b: Blog, v: Vector)
    requires WellKeyed(store)
    ensures WellKeyed(Upsert(store, b, v))
    ensures !Pending(Upsert(store, b, v), b.url)
  {
  }

  // ---------------------------------------------------------------------------
  // Text to embed

  /** The character budget of one provider input. */
  const MaxChars: nat := 8000

  predicate IsPrefix(p: string, s: string) {
    |p| <= |s| && s[..|p|] == p
  }

  /** Title and body joined by a blank line, cut to the first `MaxChars`
      characters when longer. */
  function TextToEmbed(title: string, text: string): (t: string)
    ensures |t| <= MaxChars
    ensures IsPrefix(t, title + "\n\n" + text)
    ensures |title + "\n\n" + text| <= MaxChars ==> t == title + "\n\n" + text
    ensures |title + "\n\n" + text| > MaxChars ==> |t| == MaxChars
  {
    var full := title + "\n\n" + text;
    if |full| > MaxChars then full[..MaxChars] else full
  }

  // ---------------------------------------------------------------------------
  // Batch loop

  /** What the provider (and the write that follows it) did for one item. */
  datatype Reply = Embedded(vector: Vector) | Failed

  /** The number of successful replies. */
  function Successes(replies: seq<Reply>): (n: nat)
    ensures n <= |replies|
  {
    if |replies| == 0 then 0
    else Successes(replies[..|replies| - 1]) + (if replies[|replies| - 1].Embedded? then 1 else 0)
  }

  /** The urls of the first `k` items whose reply was a success. */
  function Succeeded(items: seq<Blog>, replies: seq<Reply>, k: nat): set<Url>
    requires k <= |items| && k <= |replies|
  {
    if k == 0 then {}
    else Succeeded(items, replies, k - 1) + (if replies[k - 1].Embedded? then {items[k - 1].url} else {})
  }

  lemma {:induction false} SucceededIncludes(items: seq<Blog>, replies: seq<Reply>, k: nat, i: nat)
    requires k <= |items| && k <= |replies|
    requires i < k && replies[i].Embedded?
    ensures items[i].url in Succeeded(items, replies, k)
  {
    if i < k - 1 {
      SucceededIncludes(items, replies, k - 1, i);
    }
  }

  lemma {:induction false} SucceededWitness(items: seq<Blog>, replies: seq<Reply>, k: nat, u: Url)
    returns (i: nat)
    requires k <= |items| && k <= |replies|
    requires u in Succeeded(items, replies, k)
    ensures i < k && replies[i].Embedded? && items[i].url == u
  {
    if replies[k - 1].Embedded? && items[k - 1].url == u {
      i := k - 1;
    } else {
      i := SucceededWitness(items, replies, k - 1, u);
    }
  }

  function Snapshot(b: Blog, v: Vector): Record {
    Record(b.url, b.rssContent, b.categories, b.title, b.text, b.date, Some(v))
  }

  /** The store after the first `k` items: each success upserted in turn.
      Exactly the urls of successful items gain or replace a record. */
  function Applied(store: EmbeddingStore, items: seq<Blog>, replies: seq<Reply>, k: nat): (r: EmbeddingStore)
    requires k <= |items| && k <= |replies|
    ensures r.Keys == store.Keys + Succeeded(items, replies, k)
    ensures forall u :: u in store && u !in Succeeded(items, replies, k) ==> r[u] == store[u]
  {
    if k == 0 then store
    else
      var before := Applied(store, items, replies, k - 1);
      match replies[k - 1]
      case Embedded(v) => Upsert(before, items[k - 1], v)
      case Failed => before
  }

  /** One more item: a success upserts it, a failure leaves the store as it was. */
  lemma AppliedNext(store: EmbeddingStore, items: seq<Blog>, replies: seq<Reply>, k: nat)
    requires k < |items| && k < |replies|
    ensures replies[k].Embedded? ==>
      Applied(store, items, replies, k + 1) == Upsert(Applied(store, items, replies, k), items[k], replies[k].vector)
    ensures replies[k].Failed? ==>
      Applied(store, items, replies, k + 1) == Applied(store, items, replies, k)
  {
  }

  /** Every url of a successful item ends with a non-NULL embedding, and
      records stay under their own url. */
  lemma {:induction false} AppliedFrame(store: EmbeddingStore, items: seq<Blog>, replies: seq<Reply>, k: nat)
    requires k <= |items| && k <= |replies|
    ensures forall u :: u in Succeeded(items, replies, k) ==>
              Applied(store, items, replies, k)[u].embedding.Some?
    ensures WellKeyed(store) ==> WellKeyed(Applied(store, items, replies, k))
  {
    if k > 0 {
      AppliedFrame(store, items, replies, k - 1);
    }
  }

  /** No later item with the same url succeeded after item `i`. */
  predicate LastSuccessFor(items: seq<Blog>, replies: seq<Reply>, i: nat, k: nat)
    requires i < k <= |items| && k <= |replies|
  {
    forall j :: i < j < k && items[j].url == items[i].url ==> !replies[j].Embedded?
  }

  /** A url's record is the snapshot written by its last successful item. */
  lemma {:induction false} AppliedLastWrite(store: EmbeddingStore, items: seq<Blog>, replies: seq<Reply>, k: nat, i: nat)
    requires i < k <= |items| && k <= |replies|
    requires replies[i].Embedded? && LastSuccessFor(items, replies, i, k)
    ensures items[i].url in Applied(store, items, replies, k)
    ensures Applied(store, items, replies, k)[items[i].url] == Snapshot(items[i], replies[i].vector)
  {
    if i < k - 1 {
      assert LastSuccessFor(items, replies, i, k - 1);
      AppliedLastWrite(store, items, replies, k - 1, i);
      AppliedFrame(store, items, replies, k - 1);
    }
  }

  /** Pending urls after the batch: those pending before, minus the urls of
      successful items. */
  lemma AppliedPending(store: EmbeddingStore, items: seq<Blog>, replies: seq<Reply>, k: nat)
    requires k <= |items| && k <= |replies|
    ensures forall u :: Pending(Applied(store, items, replies, k), u) <==>
              Pending(store, u) && u !in Succeeded(items, replies, k)
  {
    AppliedFrame(store, items, replies, k);
  }

  /** The loop of `main`: every item is attempted once, in order; a success
      upserts the item and counts in `successful`, a failure counts in
      `failed` and writes nothing, and neither stops the loop. `sent` is what
      the provider was given, item by item, and `slept[i]` records whether
      the 0.2 s pause followed item `i`. */
  method RunBatch(items: seq<Blog>, store: EmbeddingStore, replies: seq<Reply>)
    returns (store': EmbeddingStore, successful: nat, failed: nat, sent: seq<string>, slept: seq<bool>)
    requires |replies| == |items|
    ensures successful + failed == |items|
    ensures successful == Successes(replies)
    ensures |sent| == |items|
    ensures forall i :: 0 <= i < |items| ==> sent[i] == TextToEmbed(items[i].title, items[i].text)
    ensures |slept| == |items|
    ensures forall i :: 0 <= i < |items| ==> (slept[i] <==> replies[i].Embedded? && i < |items| - 1)
    ensures store' == Applied(store, items, replies, |items|)
    ensures store'.Keys == store.Keys + Succeeded(items, replies, |items|)
    ensures forall u :: u in store && u !in Succeeded(items, replies, |items|) ==> store'[u] == store[u]
    ensures forall u :: Pending(store', u) <==> Pending(store, u) && u !in Succeeded(items, replies, |items|)
    ensures forall i ::
              (0 <= i < |items| && replies[i].Embedded? && LastSuccessFor(items, replies, i, |items|))
              ==> items[i].url in store' && store'[items[i].url] == Snapshot(items[i], replies[i].vector)
    ensures WellKeyed(store) ==> WellKeyed(store')
  {
    store' := store;
    successful, failed := 0, 0;
    sent, slept := [], [];
    var idx := 0;
    while idx < |items|
      invariant 0 <= idx <= |items|
      invariant successful + failed == idx
      invariant successful == Successes(replies[..idx])
      invariant |sent| == idx && |slept| == idx
      invariant forall i :: 0 <= i < idx ==> sent[i] == TextToEmbed(items[i].title, items[i].text)
      invariant forall i :: 0 <= i < idx ==> (slept[i] <==> replies[i].Embedded? && i < |items| - 1)
      invariant store' == Applied(store, items, replies, idx)
    {
      var blog := items[idx];
      sent := sent + [TextToEmbed(blog.title, blog.text)];
      assert replies[..idx + 1][..idx] == replies[..idx];
      AppliedNext(store, items, replies, idx);
      match replies[idx] {
        case Embedded(v) =>
          store' := Upsert(store', blog, v);
          successful := successful + 1;
          slept := slept + [idx + 1 < |items|];
        case Failed =>
          failed := failed + 1;
          slept := slept + [false];
      }
      idx := idx + 1;
    }
    assert replies[..idx] == replies;
    BatchEffect(store, items, replies);
  }

  /** The store after a whole batch: pending urls, last writes and keying. */
  lemma BatchEffect(store: EmbeddingStore, items: seq<Blog>, replies: seq<Reply>)
    requires |replies| == |items|
    ensures var s' := Applied(store, items, replies, |items|);
      forall u :: Pending(s', u) <==> Pending(store, u) && u !in Succeeded(items, replies, |items|)
    ensures var s' := Applied(store, items, replies, |items|);
      forall i ::
        (0 <= i < |items| && replies[i].Embedded? && LastSuccessFor(items, replies, i, |items|))
        ==> items[i].url in s' && s'[items[i].url] == Snapshot(items[i], replies[i].vector)
    ensures WellKeyed(store) ==> WellKeyed(Applied(store, items, replies, |items|))
  {
    AppliedFrame(store, items, replies, |items|);
    AppliedPending(store, items, replies, |items|);
    forall i | 0 <= i < |items| && replies[i].Embedded? && LastSuccessFor(items, replies, i, |items|)
      ensures var s' := Applied(store, items, replies, |items|);
        items[i].url in s' && s'[items[i].url] == Snapshot(items[i], replies[i].vector)
    {
      AppliedLastWrite(store, items, replies, |items|, i);
    }
  }

  /** The printed summary of a run. */
  datatype Summary =
    | AllEmbedded                                        // "All blogs already have embeddings!"
    | Totals(successful: nat, failed: nat, total: nat)

  /** `main`, with connection setup, timing and printing left out: compute
      the work set, stop at once when it is empty, else run the batch over
      it. `calls` counts the provider calls. */
  method IndexRun(blogs: seq<Blog>, store: EmbeddingStore, replies: seq<Reply>)
    returns (store': EmbeddingStore, summary: Summary, calls: nat)
    requires |replies| == |WorkSet(blogs, store)|
    ensures |WorkSet(blogs, store)| == 0 ==> summary == AllEmbedded && store' == store && calls == 0
    ensures |WorkSet(blogs, store)| > 0 ==>
      && summary.Totals?
      && summary.successful + summary.failed == summary.total == |WorkSet(blogs, store)|
      && summary.successful == Successes(replies)
      && calls == |WorkSet(blogs, store)|
    ensures var w := WorkSet(blogs, store);
      WorkSet(blogs, store') == Without(w, Succeeded(w, replies, |w|))
    ensures var w := WorkSet(blogs, store);
      (forall i :: 0 <= i < |replies| ==> replies[i].Embedded?) ==>
        Succeeded(w, replies, |w|) == Urls(w) && WorkSet(blogs, store') == []
    ensures WellKeyed(store) ==> WellKeyed(store')
  {
    var w := WorkSet(blogs, store);
    if |w| == 0 {
      WorkSetAfter(blogs, store, store, {});
      return store, AllEmbedded, 0;
    }
    var successful, failed, sent, slept;
    store', successful, failed, sent, slept := RunBatch(w, store, replies);
    summary := Totals(successful, failed, |w|);
    calls := |sent|;
    var done := Succeeded(w, replies, |w|);
    WorkSetAfter(blogs, store, store', done);
    if forall i :: 0 <= i < |replies| ==> replies[i].Embedded? {
      AllSucceeded(w, replies);
    }
  }

  /** When every item succeeds, the succeeded urls are all the items' urls
      and none of the items is left. */
  lemma AllSucceeded(w: seq<Blog>, replies: seq<Reply>)
    requires |replies| == |w|
    requires forall i :: 0 <= i < |replies| ==> replies[i].Embedded?
    ensures Succeeded(w, replies, |w|) == Urls(w)
    ensures Without(w, Succeeded(w, replies, |w|)) == []
  {
    var done := Succeeded(w, replies, |w|);
    forall i | 0 <= i < |w| ensures w[i].url in done {
      SucceededIncludes(w, replies, |w|, i);
    }
    forall u | u in done ensures u in Urls(w) {
      var i := SucceededWitness(w, replies, |w|, u);
      assert w[i] in w;
    }
    WithoutDonePrefix(w, done, |w|);
  }

  /** Resuming after an interruption: if a run over the work set stopped
      after its first `n` items, all of which were embedded, the next run's
      work set is exactly the items it had not reached. */
  method InterruptedRun(blogs: seq<Blog>, store: EmbeddingStore, n: nat, vectors: seq<Vector>)
    returns (store': EmbeddingStore)
    requires UniqueUrls(blogs)
    requires n <= |WorkSet(blogs, store)| && |vectors| == n
    ensures WorkSet(blogs, store') == WorkSet(blogs, store)[n..]
  {
    var w := WorkSet(blogs, store);
    var replies := seq(n, i requires 0 <= i < n => Embedded(vectors[i]));
    var successful, failed, sent, slept;
    store', successful, failed, sent, slept := RunBatch(w[..n], store, replies);
    var done := Succeeded(w[..n], replies, n);
    WorkSetAfter(blogs, store, store', done);
    WorkSetUnique(blogs, store);
    PrefixSucceeded(w, n, replies);
    WithoutDonePrefix(w, done, n);
  }

  /** When every one of the first `n` items of a list without repeated urls
      succeeds, the succeeded urls are exactly those of the first `n` items. */
  lemma PrefixSucceeded(w: seq<Blog>, n: nat, replies: seq<Reply>)
    requires UniqueUrls(w) && n <= |w| && |replies| == n
    requires forall i :: 0 <= i < n ==> replies[i].Embedded?
    ensures forall i :: 0 <= i < n ==> w[i].url in Succeeded(w[..n], replies, n)
    ensures forall i :: n <= i < |w| ==> w[i].url !in Succeeded(w[..n], replies, n)
  {
    var done := Succeeded(w[..n], replies, n);
    forall i | 0 <= i < n ensures w[i].url in done {
      SucceededIncludes(w[..n], replies, n, i);
    }
    forall i | n <= i < |w| ensures w[i].url !in done {
      if w[i].url in done {
        var j := SucceededWitness(w[..n], replies, n, w[i].url);
      }
    }
  }

  /** The work set inherits unique urls from the blogs table. */
  lemma {:induction false} WorkSetUnique(blogs: seq<Blog>, store: EmbeddingStore)
    requires UniqueUrls(blogs)
    ensures UniqueUrls(WorkSet(blogs, store))
  {
    if |blogs| > 0 {
      WorkSetUnique(blogs[1..], store);
      var rest := WorkSet(blogs[1..], store);
      forall b | b in rest ensures b.url != blogs[0].url {
        assert b in blogs[1..];
      }
    }
  }
}
