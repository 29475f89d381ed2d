/**
 * The ingestion pipeline: scrape the sources into paragraph-sized contexts, embed
 * them, and write them to the vector index under ids continuing from its size.
 *
 * The web fetch and HTML parsing behind `get_text`, and the embedding service, are
 * parameters (`getText`, `embed`); the remote index is the class `Index`.
 */
module Process {
  import opened Wrappers
  import opened PyStr

  /** The paragraph separator used to join and re-split the articles. */
  const Sep: string := "\n\n"
  const EmbeddingModel: string := "embed-english-v2.0"
  const IndexName: string := "cohere-gqa"
  const BatchSize: nat := 32

  /* ----- get_contexts ----- */

  /** Python's `if article:` on the `str | None` that `get_text` returns. */
  predicate Truthy(article: Option<string>) {
    article.Some? && article.value != ""
  }

  /** The articles that survive the filter, in source order. */
  function Kept(links: seq<string>, getText: string -> Option<string>): (articles: seq<string>)
    decreases |links|
    ensures |articles| <= |links|
    ensures forall k :: 0 <= k < |articles| ==> articles[k] != ""
  {
    if links == [] then []
    else
      var prev := Kept(links[..|links| - 1], getText);
      var article := getText(links[|links| - 1]);
      if Truthy(article) then prev + [article.value] else prev
  }

  /** The filter works source by source: the kept articles of a concatenation are concatenated. */
  lemma {:induction false} KeptAppend(a: seq<string>, b: seq<string>, getText: string -> Option<string>)
    ensures Kept(a + b, getText) == Kept(a, getText) + Kept(b, getText)
    decreases |b|
  {
    if b == [] {
      assert a + b == a;
    } else {
      var b' := b[..|b| - 1];
      KeptAppend(a, b', getText);
      assert (a + b)[..|a + b| - 1] == a + b';
      assert (a + b)[|a + b| - 1] == b[|b| - 1];
    }
  }

  /** A source contributes its article exactly when `get_text` returned a non-empty string. */
  lemma KeptOne(link: string, getText: string -> Option<string>)
    ensures Kept([link], getText) == if Truthy(getText(link)) then [getText(link).value] else []
  {
    assert [link][..0] == [];
  }

  /** An article is kept exactly when some source yielded it and it is not empty. */
  lemma {:induction false} KeptMembers(links: seq<string>, getText: string -> Option<string>, article: string)
    ensures article in Kept(links, getText) <==> article != "" && exists l :: l in links && getText(l) == Some(article)
    decreases |links|
  {
    if links != [] {
      var init, last := links[..|links| - 1], links[|links| - 1];
      KeptMembers(init, getText, article);
      assert links == init + [last];
      if exists l :: l in links && getText(l) == Some(article) {
        var l :| l in links && getText(l) == Some(article);
        assert l in init || l == last;
      }
    }
  }

  /**
   * Python's `get_contexts`: collect the truthy `get_text` results in source order,
   * join them with blank lines and split the result on blank lines.
   */
  method GetContexts(links: seq<string>, getText: string -> Option<string>) returns (contexts: seq<string>)
    ensures contexts == Split(Join(Kept(links, getText), Sep), Sep)
    ensures Join(contexts, Sep) == Join(Kept(links, getText), Sep)
    ensures forall k :: 0 <= k < |contexts| ==> !Contains(contexts[k], Sep)
    ensures |contexts| >= 1
    ensures Kept(links, getText) == [] ==> contexts == [""]
  {
    var articles: seq<string> := [];
    for i := 0 to |links|
      invariant articles == Kept(links[..i], getText)
    {
      assert links[..i + 1][..i] == links[..i];
      var article := getText(links[i]);
      if article.Some? && article.value != "" {
        articles := articles + [article.value];
      }
    }
    assert links[..|links|] == links;
    var text := Join(articles, Sep);
    contexts := Split(text, Sep);
    JoinSplit(text, Sep);
    if articles == [] {
      SplitEmpty(Sep);
    }
  }

  /**
   * Chunks do not follow article boundaries: the articles "p\n" and "q" give the
   * chunks "p" and "\nq", so the chunk count is not a per-article paragraph count.
   */
  lemma ChunksCrossArticles()
    ensures Split(Join(["p\n", "q"], Sep), Sep) == ["p", "\nq"]
  {
    var s := Join(["p\n", "q"], Sep);
    assert s == "p\n\n\nq";
    assert OccursAt(s, Sep, 1);
    assert s[0..2][0] == 'p';
    assert !OccursAt(s, Sep, 0);
    assert FindFrom(s, Sep, 0) == Some(1);
    assert s[..1] == "p";
    assert s[3..] == "\nq";
    assert "\nq"[0..2][1] == 'q';
    assert FindFrom("\nq", Sep, 1) == None;
    assert FindFrom("\nq", Sep, 0) == None;
  }

  /* ----- get_embeds ----- */

  /**
   * `api.embed(texts=..., model=...)`. The service is a function from this request to
   * the response's `.embeddings` list.
   */
  datatype EmbedRequest = EmbedRequest(texts: seq<string>, model: string)

  /** The embedding service returns one vector per text. */
  ghost predicate LengthPreserving<V>(embed: EmbedRequest -> seq<V>) {
    forall request :: |embed(request)| == |request.texts|
  }

  /**
   * Python's `get_embeds`: one call to the embedding service; callers that omit the
   * model pass `EmbeddingModel`, the keyword's default.
   */
  function GetEmbeds<V>(embed: EmbedRequest -> seq<V>, contexts: seq<string>, embeddingModel: string)
    : (embeddings: seq<V>)
    ensures LengthPreserving(embed) ==> |embeddings| == |contexts|
  {
    embed(EmbedRequest(contexts, embeddingModel))
  }

  /* ----- the records upsert_embeds writes ----- */

  /** The metadata dictionary `{"text": c}` stored beside each vector. */
  datatype Metadata = Metadata(text: string)

  /** What the index stores under one id: the vector and its metadata. */
  datatype Entry<E> = Entry(values: seq<E>, metadata: Metadata)

  /** One `(id, vector, metadata)` triple of the upsert payload. */
  datatype Item<E> = Item(id: string, values: seq<E>, metadata: Metadata)

  function Min(a: int, b: int): int {
    if a <= b then a else b
  }

  /** `[str(i) for i in range(n0, count + n0)]`. */
  function Ids(n0: nat, count: nat): (ids: seq<string>)
    ensures |ids| == count
  {
    seq(count, k requires 0 <= k < count => NatToString(n0 + k))
  }

  /** The ids `str(lo)` to `str(hi - 1)` as a set. */
  function IdSpan(lo: nat, hi: nat): (ids: set<string>)
  {
    set i: nat | lo <= i < hi :: NatToString(i)
  }

  /** Ids continue the count: each one reads back as `n0 + k`. */
  lemma IdsCount(n0: nat, count: nat, k: nat)
    requires k < count
    ensures IsDecimal(Ids(n0, count)[k]) && ParseNat(Ids(n0, count)[k]) == n0 + k
  {
    ParseNatToString(n0 + k);
  }

  /** Ids are pairwise distinct. */
  lemma IdsDistinct(n0: nat, count: nat)
    ensures forall j, k :: 0 <= j < k < count ==> Ids(n0, count)[j] != Ids(n0, count)[k]
  {
    forall j, k | 0 <= j < k < count ensures Ids(n0, count)[j] != Ids(n0, count)[k] {
      NatToStringInjective(n0 + j, n0 + k);
    }
  }

  /** `[{"text": c} for c in contexts]`. */
  function Wrap(contexts: seq<string>): (metas: seq<Metadata>)
    ensures |metas| == |contexts|
  {
    seq(|contexts|, k requires 0 <= k < |contexts| => Metadata(contexts[k]))
  }

  /** Python's `list(zip(ids, embeds, metas))`: stops at the shortest argument. */
  function Zip<E>(ids: seq<string>, embeds: seq<seq<E>>, metas: seq<Metadata>): (data: seq<Item<E>>)
    ensures |data| == Min(|ids|, Min(|embeds|, |metas|))
  {
    var n := Min(|ids|, Min(|embeds|, |metas|));
    seq(n, k requires 0 <= k < n => Item(ids[k], embeds[k], metas[k]))
  }

  /** The payload `upsert_embeds` builds when the index already holds `n0` vectors. */
  function Payload<E>(n0: nat, contexts: seq<string>, embeds: seq<seq<E>>): (data: seq<Item<E>>)
    ensures |data| == Min(|contexts|, |embeds|)
  {
    Zip(Ids(n0, |contexts|), embeds, Wrap(contexts))
  }

  /* ----- batching ----- */

  /** The slices `data[i:i + size]` for `i` in `range(0, len(data), size)`. */
  function Batches<T>(data: seq<T>, size: nat): (batches: seq<seq<T>>)
    requires size > 0
    decreases |data|
  {
    if |data| == 0 then []
    else if |data| <= size then [data]
    else [data[..size]] + Batches(data[size..], size)
  }

  /** The loop makes `ceil(len(data) / size)` upsert calls: the fewest that cover the data. */
  lemma {:induction false} BatchCount<T>(data: seq<T>, size: nat)
    requires size > 0
    ensures |data| <= |Batches(data, size)| * size
    ensures |Batches(data, size)| * size < |data| + size
    decreases |data|
  {
    if |data| > size {
      var rest := Batches(data[size..], size);
      BatchCount(data[size..], size);
      assert |Batches(data, size)| == |rest| + 1;
      assert (|rest| + 1) * size == |rest| * size + size;
    }
  }

  /** The batches concatenated in order. */
  function Flatten<T>(batches: seq<seq<T>>): (flat: seq<T>)
  {
    if batches == [] then [] else batches[0] + Flatten(batches[1..])
  }

  /** Every batch is non-empty and holds at most `size` items. */
  lemma {:induction false} BatchesBounded<T>(data: seq<T>, size: nat)
    requires size > 0
    ensures forall k :: 0 <= k < |Batches(data, size)| ==> 0 < |Batches(data, size)[k]| <= size
    decreases |data|
  {
    if |data| > size {
      BatchesBounded(data[size..], size);
      var bs := Batches(data, size);
      assert bs[1..] == Batches(data[size..], size);
    }
  }

  /** The batches partition the data: concatenated in order they give it back. */
  lemma {:induction false} BatchesFlatten<T>(data: seq<T>, size: nat)
    requires size > 0
    ensures Flatten(Batches(data, size)) == data
    decreases |data|
  {
    if |data| > size {
      BatchesFlatten(data[size..], size);
      var bs := Batches(data, size);
      assert bs[1..] == Batches(data[size..], size);
      assert data[..size] + data[size..] == data;
    } else if |data| > 0 {
      assert Flatten([data]) == data + Flatten([]);
    }
  }

  /** Batch `j` is the slice that starts at offset `j * size`. */
  lemma {:induction false} BatchAt<T>(data: seq<T>, size: nat, j: nat)
    requires size > 0
    requires j < |Batches(data, size)|
    ensures j * size < |data|
    ensures Batches(data, size)[j] == data[j * size..Min(j * size + size, |data|)]
    decreases j
  {
    if j > 0 {
      var rest := data[size..];
      assert Batches(data, size)[j] == Batches(rest, size)[j - 1];
      BatchAt(rest, size, j - 1);
      var lo := (j - 1) * size;
      var hi := Min(lo + size, |rest|);
      assert lo + size == j * size;
      assert hi + size == Min(j * size + size, |data|);
      forall t | 0 <= t < hi - lo
        ensures rest[lo..hi][t] == data[lo + size..hi + size][t]
      {
        assert rest[lo + t] == data[lo + t + size];
      }
      assert rest[lo..hi] == data[lo + size..hi + size];
    }
  }

  /* ----- the index ----- */

  /** The ids a payload writes. */
  function IdSet<E>(items: seq<Item<E>>): (ids: set<string>)
  {
    set k | 0 <= k < |items| :: items[k].id
  }

  lemma IdSetCons<E>(items: seq<Item<E>>)
    requires items != []
    ensures IdSet(items) == {items[0].id} + IdSet(items[1..])
  {
    forall x | x in IdSet(items) ensures x in {items[0].id} + IdSet(items[1..]) {
      var k :| 0 <= k < |items| && items[k].id == x;
      if k > 0 { assert items[1..][k - 1].id == x; }
    }
    forall x | x in IdSet(items[1..]) ensures x in IdSet(items) {
      var k :| 0 <= k < |items[1..]| && items[1..][k].id == x;
      assert items[k + 1].id == x;
    }
  }

  /** Writing a payload into the index's map: insert or overwrite by id, in order. */
  function UpsertAll<E>(m: map<string, Entry<E>>, items: seq<Item<E>>): (m': map<string, Entry<E>>)
    decreases |items|
    ensures m'.Keys == m.Keys + IdSet(items)
  {
    if items == [] then m
    else
      IdSetCons(items);
      UpsertAll(m[items[0].id := Entry(items[0].values, items[0].metadata)], items[1..])
  }

  /** Writing two payloads one after the other is writing their concatenation. */
  lemma {:induction false} UpsertAllAppend<E>(m: map<string, Entry<E>>, a: seq<Item<E>>, b: seq<Item<E>>)
    ensures UpsertAll(m, a + b) == UpsertAll(UpsertAll(m, a), b)
    decreases |a|
  {
    if a == [] {
      assert a + b == b;
    } else {
      var m1 := m[a[0].id := Entry(a[0].values, a[0].metadata)];
      assert (a + b)[0] == a[0];
      assert (a + b)[1..] == a[1..] + b;
      UpsertAllAppend(m1, a[1..], b);
    }
  }

  ghost predicate DistinctIds<E>(items: seq<Item<E>>) {
    forall j, k :: 0 <= j < k < |items| ==> items[j].id != items[k].id
  }

  /**
   * With distinct ids, every item ends up stored under its own id and every other
   * key keeps its old value.
   */
  lemma {:induction false} UpsertAllValues<E>(m: map<string, Entry<E>>, items: seq<Item<E>>)
    requires DistinctIds(items)
    ensures forall k :: 0 <= k < |items| ==>
      items[k].id in UpsertAll(m, items) && UpsertAll(m, items)[items[k].id] == Entry(items[k].values, items[k].metadata)
    ensures forall key :: key in m && key !in IdSet(items) ==>
      key in UpsertAll(m, items) && UpsertAll(m, items)[key] == m[key]
    decreases |items|
  {
    if items != [] {
      var m1 := m[items[0].id := Entry(items[0].values, items[0].metadata)];
      var rest := items[1..];
      assert DistinctIds(rest) by {
        forall j, k | 0 <= j < k < |rest| ensures rest[j].id != rest[k].id {
          assert rest[j] == items[j + 1] && rest[k] == items[k + 1];
        }
      }
      UpsertAllValues(m1, rest);
      IdSetCons(items);
      forall k | 0 <= k < |rest| ensures rest[k].id != items[0].id {
        assert rest[k] == items[k + 1];
      }
      forall k | 0 < k < |items| ensures items[k] == rest[k - 1] { }
    }
  }

  /** The ids `"0"`, `"1"`, ..., `str(n - 1)`. */
  function IdRange(n: nat): set<string>
  {
    IdSpan(0, n)
  }

  /** `n` numbers give `n` distinct ids. */
  lemma {:induction false} IdRangeSize(n: nat)
    ensures |IdRange(n)| == n
    decreases n
  {
    if n > 0 {
      IdRangeSize(n - 1);
      assert IdRange(n) == IdRange(n - 1) + {NatToString(n - 1)};
      if NatToString(n - 1) in IdRange(n - 1) {
        var k :| 0 <= k < n - 1 && NatToString(k) == NatToString(n - 1);
        NatToStringInjective(k, n - 1);
      }
    }
  }

  /** The index holds exactly the ids of a single-writer history: `"0"` to `str(n - 1)`. */
  ghost predicate KeysAreIds<E>(m: map<string, Entry<E>>, n: nat) {
    m.Keys == IdRange(n)
  }

  /** Item `k` of the payload carries id `str(n0 + k)`, vector `k` and context `k`. */
  lemma PayloadAt<E>(n0: nat, contexts: seq<string>, embeds: seq<seq<E>>)
    requires |embeds| == |contexts|
    ensures |Payload(n0, contexts, embeds)| == |contexts|
    ensures forall k :: 0 <= k < |contexts| ==>
      Payload(n0, contexts, embeds)[k] == Item(NatToString(n0 + k), embeds[k], Metadata(contexts[k]))
  {
  }

  lemma PayloadIds<E>(n0: nat, contexts: seq<string>, embeds: seq<seq<E>>)
    requires |embeds| == |contexts|
    ensures IdSet(Payload(n0, contexts, embeds)) == IdSpan(n0, n0 + |contexts|)
    ensures DistinctIds(Payload(n0, contexts, embeds))
  {
    var data := Payload(n0, contexts, embeds);
    PayloadAt(n0, contexts, embeds);
    forall x | x in IdSpan(n0, n0 + |contexts|) ensures x in IdSet(data) {
      var i: nat :| n0 <= i < n0 + |contexts| && NatToString(i) == x;
      assert data[i - n0].id == x;
    }
    forall x | x in IdSet(data) ensures x in IdSpan(n0, n0 + |contexts|) {
      var k :| 0 <= k < |data| && data[k].id == x;
      assert NatToString(n0 + k) == x;
    }
    forall j, k | 0 <= j < k < |data| ensures data[j].id != data[k].id {
      NatToStringInjective(n0 + j, n0 + k);
    }
  }

  /** Continuing the range `"0"` to `str(n0 - 1)` with `count` new ids gives the longer range. */
  lemma IdRangeExtend(n0: nat, count: nat)
    ensures IdRange(n0) + IdSpan(n0, n0 + count) == IdRange(n0 + count)
  {
  }

  /** Under the id invariant the vector count is the length of the id range. */
  lemma KeysAreIdsSize<E>(m: map<string, Entry<E>>, n: nat)
    requires KeysAreIds(m, n)
    ensures |m| == n
  {
    IdRangeSize(n);
    assert |m| == |m.Keys|;
  }

  /**
   * Ingestion keeps the id invariant: if the keys were `"0"` to `str(n0 - 1)`, writing the
   * payload extends them to `str(n0 + count - 1)` and the vector count grows by exactly
   * the number of contexts.
   */
  lemma IngestExtendsIds<E>(m: map<string, Entry<E>>, contexts: seq<string>, embeds: seq<seq<E>>)
    requires KeysAreIds(m, |m|)
    requires |embeds| == |contexts|
    ensures KeysAreIds(UpsertAll(m, Payload(|m|, contexts, embeds)), |m| + |contexts|)
    ensures |UpsertAll(m, Payload(|m|, contexts, embeds))| == |m| + |contexts|
  {
    var n0, data := |m|, Payload(|m|, contexts, embeds);
    var m' := UpsertAll(m, data);
    PayloadIds(n0, contexts, embeds);
    IdRangeExtend(n0, |contexts|);
    assert KeysAreIds(m', n0 + |contexts|);
    KeysAreIdsSize(m', n0 + |contexts|);
  }

  /** Writing the payload stores context `k` and its vector under id `k`, that is `str(n0 + k)`. */
  lemma IngestWrites<E>(m: map<string, Entry<E>>, n0: nat, contexts: seq<string>, embeds: seq<seq<E>>)
    requires |embeds| == |contexts|
    ensures forall k :: 0 <= k < |contexts| ==>
      var id := Ids(n0, |contexts|)[k];
      id in UpsertAll(m, Payload(n0, contexts, embeds)) &&
      UpsertAll(m, Payload(n0, contexts, embeds))[id] == Entry(embeds[k], Metadata(contexts[k]))
  {
    var data := Payload(n0, contexts, embeds);
    PayloadAt(n0, contexts, embeds);
    PayloadIds(n0, contexts, embeds);
    UpsertAllValues(m, data);
  }

  /** Writing the payload leaves every key outside the new ids as it was. */
  lemma IngestKeepsOthers<E>(m: map<string, Entry<E>>, n0: nat, contexts: seq<string>, embeds: seq<seq<E>>)
    requires |embeds| == |contexts|
    ensures forall key :: key in m && key !in IdSpan(n0, n0 + |contexts|) ==>
      key in UpsertAll(m, Payload(n0, contexts, embeds)) &&
      UpsertAll(m, Payload(n0, contexts, embeds))[key] == m[key]
  {
    PayloadIds(n0, contexts, embeds);
    UpsertAllValues(m, Payload(n0, contexts, embeds));
  }

  /**
   * The remote Pinecone index named `IndexName`: whether it exists (is in
   * `list_indexes()`), its dimension, its vectors by id, and the payloads of the
   * upsert calls it has received.
   */
  class Index<E> {
    var created: bool
    var dimension: nat
    var entries: map<string, Entry<E>>
    ghost var requests: seq<seq<Item<E>>>

    /** An index that does not exist holds nothing. */
    ghost predicate Valid()
      reads this
    {
      !created ==> entries == map[] && requests == []
    }

    constructor ()
      ensures Valid() && !created && entries == map[] && requests == []
    {
      created := false;
      dimension := 0;
      entries := map[];
      requests := [];
    }

    /** `pinecone.create_index(name, dimension=dim)`: a new, empty index. */
    method Create(dim: nat)
      requires Valid() && !created
      modifies this
      ensures Valid() && created && dimension == dim
      ensures entries == map[] && requests == []
    {
      created := true;
      dimension := dim;
    }

    /** `describe_index_stats()["total_vector_count"]`. */
    method DescribeIndexStats() returns (totalVectorCount: nat)
      ensures totalVectorCount == |entries|
    {
      totalVectorCount := |entries|;
    }

    /** `index.upsert(batch)`: insert or overwrite each item by id. */
    method Upsert(batch: seq<Item<E>>)
      requires Valid() && created
      modifies this
      ensures Valid() && created && dimension == old(dimension)
      ensures entries == UpsertAll(old(entries), batch)
      ensures requests == old(requests) + [batch]
    {
      entries := UpsertAll(entries, batch);
      requests := requests + [batch];
    }
  }

  /**
   * The batch loop of `upsert_embeds`: `for i in range(0, len(data), size)` upsert
   * `data[i:i + size]`.
   */
  method UpsertBatches<E>(index: Index<E>, data: seq<Item<E>>, size: nat)
    requires index.Valid() && index.created && size > 0
    modifies index
    ensures index.Valid() && index.created && index.dimension == old(index.dimension)
    ensures index.entries == UpsertAll(old(index.entries), data)
    ensures index.requests == old(index.requests) + Batches(data, size)
  {
    var i := 0;
    while i < |data|
      invariant i <= |data|
      invariant index.Valid() && index.created && index.dimension == old(index.dimension)
      invariant index.entries == UpsertAll(old(index.entries), data[..i])
      invariant index.requests + Batches(data[i..], size) == old(index.requests) + Batches(data, size)
      decreases |data| - i
    {
      var j := Min(i + size, |data|);
      var batch := data[i..j];
      UpsertAllAppend(old(index.entries), data[..i], batch);
      assert data[..i] + batch == data[..j];
      BatchesStep(data, size, i);
      index.Upsert(batch);
      i := j;
    }
    assert data[..|data|] == data;
  }

  /** Peeling the batch that starts at offset `i` off the remaining data. */
  lemma BatchesStep<T>(data: seq<T>, size: nat, i: nat)
    requires size > 0 && i < |data|
    ensures Batches(data[i..], size)
      == [data[i..Min(i + size, |data|)]] + Batches(data[Min(i + size, |data|)..], size)
  {
    var j := Min(i + size, |data|);
    if |data[i..]| > size {
      assert data[i..][..size] == data[i..j];
      assert data[i..][size..] == data[j..];
    } else {
      assert data[i..] == data[i..j] && data[j..] == [];
    }
  }

  /** The two ways `upsert_embeds` raises. */
  datatype UpsertError =
    | NoEmbeddings   // `embeds[0]` on an empty list when the index has to be created
    | DataMismatch   // the assertion `len(ids) == len(embeds) == len(contexts)`

  /**
   * Python's `upsert_embeds`: create the index if absent (dimension from the first
   * vector), read its vector count `n0`, number the contexts from `n0`, and upsert the
   * triples in consecutive batches of `BatchSize`.
   */
  method UpsertEmbeds<E>(index: Index<E>, contexts: seq<string>, embeds: seq<seq<E>>)
    returns (r: Result<(), UpsertError>)
    requires index.Valid()
    modifies index
    ensures index.Valid()
    ensures index.created == (old(index.created) || embeds != [])
    ensures index.dimension == if old(index.created) || embeds == [] then old(index.dimension) else |embeds[0]|
    ensures r == Failure(NoEmbeddings) <==> !old(index.created) && embeds == []
    ensures r == Failure(DataMismatch) <==> (old(index.created) || embeds != []) && |embeds| != |contexts|
    ensures r.Failure? ==> index.entries == old(index.entries) && index.requests == old(index.requests)
    ensures r.Success? ==>
      var data := Payload(|old(index.entries)|, contexts, embeds);
      && |data| == |contexts|
      && index.entries == UpsertAll(old(index.entries), data)
      && index.requests == old(index.requests) + Batches(data, BatchSize)
    ensures r.Success? ==> forall k :: 0 <= k < |contexts| ==>
      var id := Ids(|old(index.entries)|, |contexts|)[k];
      id in index.entries && index.entries[id] == Entry(embeds[k], Metadata(contexts[k]))
    ensures r.Success? ==> forall key :: key in old(index.entries) && key !in IdSpan(|old(index.entries)|, |old(index.entries)| + |contexts|) ==>
      key in index.entries && index.entries[key] == old(index.entries)[key]
    ensures r.Success? && KeysAreIds(old(index.entries), |old(index.entries)|) ==>
      && KeysAreIds(index.entries, |old(index.entries)| + |contexts|)
      && |index.entries| == |old(index.entries)| + |contexts|
  {
    if !index.created {
      if |embeds| == 0 {
        return Failure(NoEmbeddings);
      }
      index.Create(|embeds[0]|);
    }
    var n0 := index.DescribeIndexStats();
    var ids := Ids(n0, |contexts|);
    var metas := Wrap(contexts);
    if !(|ids| == |embeds| == |metas|) {
      return Failure(DataMismatch);
    }
    var data := Zip(ids, embeds, metas);
    ghost var m0 := index.entries;
    PayloadAt(n0, contexts, embeds);
    UpsertBatches(index, data, BatchSize);
    IngestWrites(m0, n0, contexts, embeds);
    IngestKeepsOthers(m0, n0, contexts, embeds);
    if KeysAreIds(m0, n0) {
      IngestExtendsIds(m0, contexts, embeds);
    }
    return Success(());
  }
}
