# cohere-genq: a verified model of the ingestion and query core

The repository is a small retrieval-augmented question answering pipeline. It scrapes
paragraphs from web pages, embeds them with Cohere, stores them in a Pinecone index, and
answers questions by retrieving the nearest stored paragraphs and asking Cohere's
generator. This project models the three pieces of sequential logic the repository
implements itself. The web, the embedding model, the vector search and the generator
are abstract parameters.

- **Chunking of scraped text** (`get_contexts`, module `Process`). `get_text` is an
  oracle `string -> Option<string>`. The method keeps the truthy results in source
  order, joins them with `"\n\n"` and re-splits on `"\n\n"`. Python's `str.join` and
  `str.split(sep)` are modelled exactly in module `PyStr`: leftmost, non-overlapping
  matches, and `"".split(sep) == [""]`.
- **Id assignment and batched upsert** (`upsert_embeds`, module `Process`). The Pinecone
  index named `cohere-gqa` is the class `Process.Index`. It has an existence flag, a
  dimension, a `map` from id to (vector, metadata), and a ghost log of the payload of
  every `upsert` call. Vectors are `seq<E>` with an opaque element type.
  - `UpsertEmbeds` creates the index if absent and reads its vector count `n0`.
  - It numbers the contexts `str(n0)`, `str(n0 + 1)`, … and checks the lengths.
  - It then upserts the triples in slices of 32, in a `while` loop.
- **Prompt assembly** (`llm_chat`, module `Chat`). The template literal is kept with its
  indentation. Python's `str.format` is modelled as a single left-to-right pass.
  `llm_chat` is a function over abstract `embed`, `query` and `generate` calls.

Two consequences of the chunking code are easy to overlook:

- When no source yields text, `get_contexts` returns `[""]`, a list holding one empty
  chunk, never an empty list (`Process.GetContexts`).
- The number of chunks is not a per-article paragraph count. Articles are joined
  before the split, so a separator can straddle two articles.
  `Process.ChunksCrossArticles` shows that the articles `"p\n"` and `"q"` give the
  chunks `"p"` and `"\nq"`.

## Model

| member | source | states |
|---|---|---|
| `PyStr.FindFrom` | process.py:58 | The search inside `split`: the result is an occurrence of the separator at or after the start, and no occurrence lies before it; `None` means there is none |
| `PyStr.Split` | process.py:58 | `s.split(sep)` has at least one chunk; no chunk contains `sep`; each chunk except the last is followed by the leftmost remaining separator |
| `PyStr.JoinSplit` | process.py:58 | Round trip: `sep.join(s.split(sep)) == s` for every string |
| `PyStr.SplitJoin` | process.py:58 | Converse round trip: splitting the join of split-shaped chunks gives them back, so `split` is the only split-shaped sequence whose join is `s` |
| `PyStr.SplitEmpty` | process.py:58 | `"".split(sep) == [""]` |
| `PyStr.Join` | process.py:58 | `sep.join(parts)` is `""` for no parts. Otherwise the first part is a prefix and the length is the parts' total plus one separator fewer than there are parts. `JoinSplit`, `SplitJoin` and `JoinAppend` give the rest |
| `PyStr.JoinAppend` | chat.py:28 | Joining a concatenation puts exactly one separator between the joins of the two non-empty parts |
| `PyStr.NatToString` | process.py:83 | `str(n)` is a non-empty run of decimal digits with no leading zero, so `str(0)` is `"0"` |
| `PyStr.ParseNatToString` | process.py:83 | `int(str(n)) == n` |
| `PyStr.NatToStringInjective` | process.py:82-85 | Distinct numbers give distinct id strings |
| `Process.Truthy` | process.py:56 | The test `if article:`, false for `None` and `""`. `KeptOne` and `KeptMembers` state its effect |
| `Process.Kept` | process.py:53-57 | The kept articles are never empty strings and are at most one per source |
| `Process.KeptAppend` | process.py:54-57 | The filter works source by source, in source order: the kept articles of `a + b` are those of `a` followed by those of `b` |
| `Process.KeptOne` | process.py:55-57 | A source contributes its article exactly when `get_text` returned a non-empty string, and contributes nothing when it returned `None` or `""` |
| `Process.KeptMembers` | process.py:55-57 | An article is kept if and only if it is non-empty and some source's `get_text` returned it |
| `Process.GetContexts` | process.py:51-58 | The result is the split of the joined kept articles. Re-joining the chunks gives that join back. No chunk contains `"\n\n"`. The list is never empty, and is `[""]` when nothing is kept |
| `Process.ChunksCrossArticles` | process.py:58 | Articles `"p\n"` and `"q"` give chunks `"p"` and `"\nq"`, so chunks do not follow article boundaries |
| `Process.GetEmbeds` | process.py:61-64 | With an embedding service that returns one vector per text, the result has one vector per context, for any `embedding_model` |
| `Process.Ids` | process.py:82-85 | One id per context. `IdsCount` and `IdsDistinct` state what the ids are |
| `Process.IdsCount` | process.py:82-85 | Id `k` is a decimal string that reads back as `n0 + k` |
| `Process.IdsDistinct` | process.py:82-85 | The ids of one run are pairwise distinct |
| `Process.Wrap` | process.py:86 | One `{"text": c}` record per context, in order. `PayloadAt` states its contents |
| `Process.Zip` | process.py:89 | `zip` stops at its shortest argument |
| `Process.Payload` | process.py:82-89 | The payload is as long as the shorter of contexts and embeddings. `PayloadAt` and `PayloadIds` state its items |
| `Process.PayloadAt` | process.py:82-89 | With equal lengths, payload item `k` is `(str(n0 + k), embeds[k], {"text": contexts[k]})` |
| `Process.PayloadIds` | process.py:82-89 | The payload's ids are exactly `str(n0)` to `str(n0 + len - 1)`, pairwise distinct |
| `Process.Batches` | process.py:90-91 | The slices of 32 sent by the loop. `BatchesBounded`, `BatchesFlatten`, `BatchAt` and `BatchCount` state them |
| `Process.BatchCount` | process.py:90 | The loop makes the fewest calls that cover the data: `ceil(len(data) / 32)`, so none for empty data |
| `Process.BatchesBounded` | process.py:70 | Every batch holds between 1 and 32 items |
| `Process.BatchesFlatten` | process.py:89-91 | The batches, concatenated in order, are exactly the data, so every item is sent once and in order |
| `Process.BatchAt` | process.py:90-91 | Batch `j` is the slice `data[32j : 32j + 32]`, clipped at the end, and starts inside the data |
| `Process.UpsertAll` | process.py:91 | After an upsert the keys are the old keys plus the payload's ids |
| `Process.UpsertAllAppend` | process.py:90-91 | Upserting two payloads one after the other equals upserting their concatenation, so batching does not change the result |
| `Process.UpsertAllValues` | process.py:91 | With distinct ids, each item is stored under its id, and every other key keeps its old value |
| `Process.IdRangeSize` | process.py:80-85 | The ids `"0"` to `str(n - 1)` are `n` distinct strings |
| `Process.KeysAreIdsSize` | process.py:80 | When the keys are `"0"` to `str(n - 1)`, the vector count is `n` |
| `Process.IngestExtendsIds` | process.py:80-91 | If the keys were `"0"` to `str(n0 - 1)`, ingesting `c` contexts makes them `"0"` to `str(n0 + c - 1)`, and the count grows by exactly `c` |
| `Process.IngestWrites` | process.py:82-91 | Ingestion stores context `k` and its vector under id `k` of the run |
| `Process.IngestKeepsOthers` | process.py:82-91 | Ingestion leaves every key outside the run's ids unchanged |
| `Process.Index.constructor` | process.py:76 | An index that does not exist yet: no entries and no upsert calls |
| `Process.Index.Create` | process.py:76-77 | Creating the index makes it exist, empty, with the requested dimension |
| `Process.Index.DescribeIndexStats` | process.py:80 | `total_vector_count` is the number of stored vectors |
| `Process.Index.Upsert` | process.py:91 | One upsert call inserts or overwrites each item by id and logs its payload |
| `Process.UpsertBatches` | process.py:89-91 | The batch loop leaves the index holding the whole payload upserted, and its log gains exactly the batches, in order |
| `Process.UpsertEmbeds` | process.py:67-91 | Three outcomes. With the index absent and no embeddings it raises at `embeds[0]` and writes nothing. With a length mismatch the assertion fails, nothing is written, and the index may have been created. Otherwise context `k` goes under `str(n0 + k)`, the other keys are unchanged, the calls are the batches of 32, and the id invariant is kept |
| `Chat.TemplateShape` | chat.py:37-48 | The template constant `Template`, with its indentation, is brace-free text with exactly the two fields `{context}` and `{question}` |
| `Chat.Format` | chat.py:29 | `template.format(**args)` as one left-to-right pass. `FormatLiteral`, `FormatField` and `FormatTemplate` state its behaviour |
| `Chat.FormatLiteral` | chat.py:29 | `format` copies text without braces unchanged |
| `Chat.FormatField` | chat.py:29 | `format` replaces a keyword field by its value verbatim, and does not scan the value again |
| `Chat.FormatTemplate` | chat.py:37-48 | Formatting the template never fails. It inserts the context block and the question once each, verbatim, and keeps every other character, indentation included |
| `Chat.Texts` | chat.py:28 | One stored text per match, in match order |
| `Chat.ContextBlock` | chat.py:28 | No matches give `""`; one match gives its text |
| `Chat.ContextBlockAppend` | chat.py:28 | The block keeps store order: the block of `a + b` is the block of `a`, a blank line, then the block of `b` |
| `Chat.ContextBlockSplits` | chat.py:28 | When the stored texts are split-shaped chunks, splitting the block gives back the match texts in store order |
| `Chat.LlmChat` | chat.py:18-31 | `llm_chat` for any template and embedding model. `ChatWithTemplate` states its result for the route's template and default model |
| `Chat.ChatWithTemplate` | chat.py:18-31 | Embed receives `[question]` with model `embed-english-v2.0`. Query receives `[xq]`, where `xq` is the whole `.embeddings` list, with `top_k=5` and `include_metadata=True`. Generate receives the filled template with `temperature=0.5`, model `command` and `max_tokens=128`. The first generation's text is returned unchanged, `### I don't know ###` included. Only an empty generation list is an error |
| `Chat.EmptyRetrievalPrompt` | chat.py:28-29 | With no matches the prompt is still the whole template, with an empty context |
| `Chat.PromptShowsInputs` | chat.py:43-47 | The prompt contains `context: ` followed by the block, and `question: ` followed by the question |

## Left out

- HTTP fetch, local-file fallback and HTML parsing in `get_text` (process.py:18-48) are
  network, filesystem and parser work. They are the oracle `getText`. The
  `RequestException` handler at process.py:38-41 is never reached, because the inner
  handler at line 27 catches request errors first.
- `pinecone.init`, the credentials file and both `main` functions (process.py:94-120,
  chat.py:53-62) are configuration and connection setup. The Flask route and app
  (chat.py:15, 34-70) and qanda.py are HTTP boundary code.
- The Cohere and Pinecone services are parameters or the in-memory `Index`. Their own
  failures, retries and latency are not modelled. A service error in Python propagates
  and aborts the run.
- Similarity ranking of query results is the store's job and needs float vectors. The
  match order is taken as given, and the model does not assume the store returns at
  most `top_k` matches.
- Vector elements are an opaque type, so there is no floating point. Pinecone's
  server-side check that upserted vectors match the index dimension, and any mismatch
  with an index that already exists, are not modelled.
- A partial failure in the middle of the batch loop is not modelled. Each `upsert`
  call succeeds.
- Concurrent ingestion runs racing on the vector count are out of scope. The model is
  single-writer.
- `tqdm` progress and logging are not modelled. Python's `-O` flag, which strips
  `assert`, is not modelled either.
- `Chat.Format` models `str.format` only for keyword fields and `{{`/`}}` escapes.
  Empty or positional field names, attribute or index access, `!` conversions and `:`
  format specs are reported as `UnsupportedField`. Python gives them other meanings or
  other errors. LangChain's `PromptTemplate` validation and its unused-argument check
  are not modelled.
- A match whose metadata has no `text` key (a `KeyError` at chat.py:28) cannot occur in
  the model. Every stored entry carries `Metadata(text)`, as `upsert_embeds` writes it.
- GetEmbeds: the embedding service is one function from `EmbedRequest` to the
  `.embeddings` list, shared by `get_embeds` and `llm_chat`. Its one-vector-per-text
  promise is a hypothesis
  (`LengthPreserving`), not a guarantee. When the service breaks it, `UpsertEmbeds`
  reports the assertion failure.
