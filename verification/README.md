# AI ticket triage, modelled in Dafny

This project models the decision logic of an IT-ticket triage service. The
service classifies support tickets into configured categories. It tries to
avoid paid or slow model calls with two caches:

- **The batch engine** (`src/main.py`) walks the "New" tickets. It fingerprints
  each description: lower-case, strip, SHA-256, then hex. It reuses the category
  of a ticket already "Classified" under the same fingerprint. Otherwise it asks
  the classifier once. Each ticket is isolated from the others' exceptions. The
  session is committed only when some ticket was processed.
- **The HTTP gateway** (`src/api/main.py`) stores a ticket as "Pending" and
  queues a background worker. The worker first asks the *semantic shield*: a
  vector-store lookup that answers only when the nearest stored ticket lies
  strictly closer than distance 0.5. Otherwise it retrieves the three nearest
  tickets as few-shot examples, whatever their distance. It asks the local
  Ollama model, stores the answer and teaches the vector store. Clients poll a
  ticket's status, and a human can correct a category.
- **The seeding script** (`generate_synthetic_data.py`) requests one batch of
  tickets from a generative model. It retries rate limits with exponential
  back-off and stores every record that has a description and an urgency.

Everything is modelled as pure functions over immutable values. The database is
a sequence of `Ticket` rows, and the ticket with id `i + 1` is row `i`. The
vector store is a map from id to (document, category) plus the order in which
ids were added. The service's foreign parts become parameters or inputs:

- SHA-256 is a parameter `sha` returning 32 bytes.
- The embedding distance is a parameter `dist(query, document)`.
- The classifier's answers and the Ollama HTTP reply are inputs.
- The outcome of each generation attempt and the random jitter are inputs.
- The points where an exception interrupts a ticket are inputs.

Modules, one per source file of the core:

| module | file | content |
|---|---|---|
| `Wrappers` | — | `Option`, `Result` |
| `Text` | — | Python's `lower()` (ASCII), `strip()`, `in` on strings, `str(n)` |
| `Fingerprint` | `src/core/utils.py` | normalisation, UTF-8, hex, the content hash |
| `Tickets` | `src/core/database.py` | the `Ticket` row, statuses, defaults, lookup and insert |
| `Provider` | `src/interfaces/llm_provider.py` | the classifier call and the `"Unclassified"` sentinel |
| `SemanticCache` | `src/core/semantic_cache.py` | query, shield, few-shot retrieval, add, update |
| `OllamaAdapter` | `src/adapters/ollama_adapter.py` | the exact prompt, and reply handling |
| `BatchTriage` | `src/main.py` | the batch loop, counters, commit rule |
| `TriageApi` | `src/api/main.py` | worker, ingest, polling, feedback |
| `SyntheticData` | `generate_synthetic_data.py` | retry/back-off loop, insertion filter |

## Model

| member | source | states |
|---|---|---|
| Text.Lower | src/core/utils.py:14 | `lower()` keeps the length, folds each character, leaves no upper-case ASCII letter, and is the identity on text without one |
| Text.Strip | src/core/utils.py:14 | `strip()` returns a contiguous slice of its input with no whitespace at either end |
| Text.StripDecomposition | src/core/utils.py:14 | the input is a whitespace run, then the stripped text, then a whitespace run |
| Text.StripUnique | src/core/utils.py:14 | `strip()` is characterised by its result: for spaces + m + spaces with m non-space at both ends, it returns m |
| Text.StripIdempotent | src/core/utils.py:14 | stripping twice equals stripping once |
| Text.DecimalRoundTrip | src/api/main.py:115 | `str(ticket_id)` reads back as the same id |
| Text.DecimalInjective | src/api/main.py:115 | distinct ticket ids give distinct vector-store keys |
| Fingerprint.Normalize | src/core/utils.py:14 | the normal form has no leading or trailing whitespace and no upper-case ASCII letter |
| Fingerprint.NormalizeIdempotent | src/core/utils.py:14 | normalising a normal form changes nothing |
| Fingerprint.InteriorSpacePreserved | src/core/utils.py:14 | only the ends are trimmed: "a  b" and "a b" normalise differently |
| Fingerprint.Utf8CharRoundTrip | src/core/utils.py:15 | the UTF-8 encoding of one character decodes back to it |
| Fingerprint.Utf8Injective | src/core/utils.py:15 | distinct strings encode to distinct UTF-8 bytes |
| Fingerprint.HexRoundTrip | src/core/utils.py:15 | the hex digest parses back to the digest bytes |
| Fingerprint.ContentHash | src/core/utils.py:3-15 | the fingerprint is a 64-character lower-case hex string |
| Fingerprint.ContentHashSameDigest | src/core/utils.py:15 | two fingerprints are equal exactly when the two SHA-256 digests are: the hex rendering loses nothing |
| Fingerprint.ContentHashEqualIff | src/core/utils.py:13-15 | equal normal forms give equal fingerprints; when the digest does not collide on the two encoded normal forms, equal fingerprints mean equal normal forms |
| Fingerprint.ContentHashOfNormalForm | src/core/utils.py:14-15 | hashing the normal form gives the same fingerprint as hashing the text |
| Fingerprint.MouseBrokenExample | src/core/utils.py:13 | "Mouse Broken" and "mouse broken " have the same fingerprint |
| Tickets.StatusNameInjective | src/core/database.py:35 | distinct statuses are stored as distinct strings |
| Tickets.Find | src/api/main.py:84-85 | the lookup by id finds a row exactly when the id lies between 1 and the number of rows, and then it is the row stored under that id |
| Tickets.Insert | src/api/main.py:140-142 | an added row gets the next id and every existing id keeps its row |
| SemanticCache.Query | src/core/semantic_cache.py:75-78 | a query returns `min(n, count)` distinct stored entries with their own documents, categories and distances, nearest first; no entry left out is nearer than the last one returned |
| SemanticCache.ShieldDecision | src/core/semantic_cache.py:40-51 | a result with no distance is a miss; otherwise a hit exactly when the nearest distance is strictly below the threshold, with that row's category |
| SemanticCache.CheckCache | src/core/semantic_cache.py:27-51 | an empty store misses; the shield answers exactly when some entry is strictly closer than the threshold, and then with the category of a nearest entry |
| SemanticCache.ShieldBoundary | src/core/semantic_cache.py:45-51 | an entry at exactly the threshold is a miss, one below it is a hit with its category |
| SemanticCache.SimilarExamples | src/core/semantic_cache.py:64-89 | `[]` on an empty store; otherwise the examples of `min(limit, count)` distinct entries, nearest first, each pairing an entry's document with its category, and no entry left out is nearer than the last one used |
| SemanticCache.FewShotWithoutThreshold | src/core/semantic_cache.py:73-78 | retrieval has no threshold: an entry at distance 0.9 is returned as an example while the shield misses |
| SemanticCache.AddToCache | src/core/semantic_cache.py:53-62 | a fresh id adds exactly one entry (id, description, category) and keeps every other entry |
| SemanticCache.UpdateCategory | src/core/semantic_cache.py:91-109 | a stored id keeps its document and takes the new category, others are untouched; an unknown id or a store error changes nothing |
| SemanticCache.QueryAfterUpdate | src/core/semantic_cache.py:100-104 | a correction moves no entry: queries return the same ids, documents and distances, with only the corrected category changed |
| OllamaAdapter.Repr | src/adapters/ollama_adapter.py:29 | a category is rendered as a literal in the quote Python's `repr` picks, and the inside of the literal reads back as the category |
| OllamaAdapter.ListRepr | src/adapters/ollama_adapter.py:29 | the category list renders in brackets, as `[]` exactly when it is empty, and otherwise starting with the first category's literal |
| OllamaAdapter.Prompt | src/adapters/ollama_adapter.py:29-37 | the prompt opens with the role line listing the categories, has the context header right after it exactly when there are examples, and ends with the ticket line and the output constraint; without examples it is exactly the role line, the ticket line and the constraint |
| OllamaAdapter.HeaderOrTicketLine | src/adapters/ollama_adapter.py:31-36 | after the role line comes the context header when examples are non-empty, and the ticket line when they are None or `[]` |
| OllamaAdapter.ExampleLinesAppend | src/adapters/ollama_adapter.py:33-34 | the example lines of a concatenation are the lines of each part, in order |
| OllamaAdapter.PromptLayout | src/adapters/ollama_adapter.py:31-37 | each example contributes exactly its own line at its own position, between the header and the ticket line |
| OllamaAdapter.MissingKeysRenderEmpty | src/adapters/ollama_adapter.py:34 | missing "description"/"category" keys render as empty strings |
| OllamaAdapter.ExampleNewlineInjection | src/adapters/ollama_adapter.py:34 | example text is not sanitised: one description holding a newline and the line syntax renders as two examples |
| OllamaAdapter.Classify | src/adapters/ollama_adapter.py:39-61 | a request error or a missing "response" field gives "Unclassified"; a string response gives its stripped text, never with edge whitespace; a body that is not an object, or a response that is not a string, raises `AttributeError`, which escapes |
| OllamaAdapter.ClassifyKeepsReplyText | src/adapters/ollama_adapter.py:57 | the category is the reply text with only surrounding whitespace removed |
| BatchTriage.NewTickets | src/main.py:60 | the pending list is exactly the indices of "New" tickets, in increasing order |
| BatchTriage.FindByHash | src/main.py:84-88 | the lookup finds the lowest ticket with the same hash, status "Classified" and a category other than "Unclassified", and none when there is no such ticket |
| BatchTriage.Resolve | src/main.py:90-114 | a hit reuses that ticket's category with no call; a miss makes exactly one call (description, categories, no examples) and stores its answer; either way the ticket ends "Classified" |
| BatchTriage.Step | src/main.py:75-129 | one ticket: an exception before hashing leaves it untouched, one after leaves only the hash stored; otherwise it is hashed, resolved and counted; no other ticket changes |
| BatchTriage.Run | src/main.py:72-129 | over the loop: processed counts the tickets that complete, hits never exceed them, and calls = processed - hits, all plain calls |
| BatchTriage.RunSettles | src/main.py:72-129 | the loop changes only the pending tickets, and each ends as its fault dictates |
| BatchTriage.TriageBatch | src/main.py:58-142 | no "New" tickets means no call and no commit; non-"New" rows are untouched; reported AI calls equal the calls made; commit happens exactly when processed > 0 |
| BatchTriage.DuplicateRun | src/main.py:84-95 | two "New" tickets with the same fingerprint cost one call, and both get its answer |
| BatchTriage.DuplicateInBatchHitsCache | src/main.py:79-95 | two descriptions with the same normal form in one batch: one call, one cache hit, both persisted with the answer |
| BatchTriage.SentinelRun | src/main.py:83-88 | a ticket classified "Unclassified" is never reused, so the duplicate costs a second call |
| BatchTriage.SentinelIsRetried | src/main.py:83-88 | through the whole batch, an "Unclassified" answer leads to two reported AI calls and no hit |
| TriageApi.ShieldAnswers | src/api/main.py:90-91 | the shield answers only with a nearest entry closer than 0.5 whose category is non-empty; when no stored category is empty, it answers exactly when some entry lies closer than 0.5 |
| TriageApi.ProcessTicketBackground | src/api/main.py:73-124 | the worker's state machine: unknown id changes nothing; shield hit gives "Classified_By_Cache" with no call; no classifier gives "Failed_No_AI"; otherwise one call carrying exactly the examples `get_similar_examples(description, 3)` returns, "Classified_By_AI", and the answer taught under `str(id)`; an exception in the shield query, the example query or the classifier gives "Failed_Processing" with the old category and no teaching; one in the cache write keeps the stored answer with "Failed_Processing" |
| TriageApi.IngestTicket | src/api/main.py:127-152 | a description shorter than 5 characters is refused with 422; otherwise a "Pending" ticket for "api_user" with urgency "Medium" gets the next id, which is returned and queued |
| TriageApi.GetTicketStatus | src/api/main.py:155-169 | 404 for an unknown id; otherwise the row's description, category and status string |
| TriageApi.SubmitFeedback | src/api/main.py:175-195 | 404 before 400, neither changing anything; otherwise "Human_Corrected" with the new category; the vector entry under `str(id)`, if any, takes the category, and no other entry, no id and no order changes |
| TriageApi.IngestThenPoll | src/api/main.py:134-152 | a ticket just ingested polls back "Pending" with its description and no category |
| TriageApi.IngestThenWork | src/api/main.py:145 | the queued job finds its ticket, moves it out of "Pending" and touches no other row |
| TriageApi.ClassifiedTicketShieldsRepeat | src/api/main.py:111-115 | after the worker classifies a ticket under a fresh id, an identical description lies within the shield's threshold; when the answer and every stored category are non-empty, the shield answers it |
| TriageApi.SentinelIsTaught | src/api/main.py:103-115 | a failed classification is taught too: the vector store learns "Unclassified" for the description |
| TriageApi.FeedbackIdempotent | src/api/main.py:187-193 | repeating the same correction changes nothing more |
| SyntheticData.GenerateFrom | generate_synthetic_data.py:55-96 | the loop never passes the fifth attempt, calls at least once, and returns items only from the JSON array its last call received |
| SyntheticData.LoopOutcome | generate_synthetic_data.py:55-96 | the last call is an attempt whose outcome is not retried, or the fifth; the batch is that attempt's JSON array if it got one and empty otherwise; the sleeps are exactly `4 * 2^i + jitter[i]` for each rate-limited attempt i before it, in order, and nothing else sleeps |
| SyntheticData.RetriedBeforeLast | generate_synthetic_data.py:71-94 | every call but the last met JSON that is not an array, text that is not JSON, or a rate limit |
| SyntheticData.GenerateBatch | generate_synthetic_data.py:52-96 | the retry loop computes the same items, call count and sleeps as the recursive definition |
| SyntheticData.CallsBounded | generate_synthetic_data.py:52-55 | at least one and at most five model calls, and fewer sleeps than calls |
| SyntheticData.BackoffGrows | generate_synthetic_data.py:87 | the i-th sleep from attempt a lasts at least 4 * 2^(a+i) seconds |
| SyntheticData.SleepWithinBudget | generate_synthetic_data.py:82-91 | with jitter in [0, 1], the total sleep is within one back-off per attempt but the last |
| SyntheticData.BudgetOfBatch | generate_synthetic_data.py:52-53 | that budget for a batch is 4 + 8 + 16 + 32 + 4 = 64 seconds |
| SyntheticData.TotalSleepBounded | generate_synthetic_data.py:82-91 | a batch sleeps at most 64 seconds in total |
| SyntheticData.PersistentRateLimit | generate_synthetic_data.py:82-85 | rate limits on every attempt: five calls, four back-offs, no items |
| SyntheticData.OtherErrorStops | generate_synthetic_data.py:92-94 | any other exception returns `[]` after a single call and no sleep |
| SyntheticData.UserIdOf | generate_synthetic_data.py:136 | the record's user id, or "u" followed by four digits |
| SyntheticData.TicketOf | generate_synthetic_data.py:136-143 | a stored record becomes a "New" ticket with its description, its urgency and the user id `str(uid)` of the record or the fallback |
| SyntheticData.Rows | generate_synthetic_data.py:132-145 | one "New" ticket per record holding both a description and an urgency |
| SyntheticData.RowsComeFromRecords | generate_synthetic_data.py:132-145 | every row comes from a complete record |
| SyntheticData.RecordsBecomeRows | generate_synthetic_data.py:132-145 | every complete record gives a row |
| SyntheticData.InsertGenerated | generate_synthetic_data.py:131-149 | the session gains exactly the rows of the complete records, appended in order |
| SyntheticData.GenerateAndInsert | generate_synthetic_data.py:125-149 | an empty batch inserts nothing; otherwise the count grows by the number of complete records and existing rows stay |
| SyntheticData.SeededTicketsAreNew | generate_synthetic_data.py:142 | every seeded ticket is picked up by the next batch run |

### Choices where the code leaves behaviour open

- **Which matching ticket is reused.** The batch lookup's `.first()` has no
  `ORDER BY` (`src/main.py:84-88`), so the database may return any matching
  ticket. The model takes the lowest id (`BatchTriage.FindByHash`). Every
  property above holds for any choice among matching tickets except the
  identity of the one reused.
- **The order of the batch.** The query for "New" tickets (`src/main.py:60`)
  has no `ORDER BY` either. The model processes them in id order
  (`BatchTriage.NewTickets`). Which of two duplicates is classified and which
  reuses the answer depends on this order.
- **The Sentinel is taught.** The worker teaches the vector store even when
  the answer is "Unclassified" (`TriageApi.SentinelIsTaught`). A later similar
  ticket is then shielded with "Unclassified". The batch engine, by contrast,
  refuses to reuse that category.
- **Prompt injection.** Example text is interpolated into the prompt without
  escaping (`OllamaAdapter.ExampleNewlineInjection`).
- **The batch classifier never raises.** The Gemini adapter catches every
  exception and returns "Unclassified" (`src/adapters/gemini_adapter.py:40-42`). A per-ticket exception in the batch
  loop can therefore come only from hashing or from the lookup query
  (`BatchTriage.Fault`).
- **The worker's classifier can raise.** `classify_ticket` catches only
  `requests` exceptions (`src/adapters/ollama_adapter.py:59`). A body that is
  not a JSON object, or a "response" that is not a string, raises
  `AttributeError` at line 57. The worker then marks the ticket
  "Failed_Processing", keeps its old category and teaches nothing
  (`OllamaAdapter.Classify`, `TriageApi.ProcessTicketBackground`).
- **Empty shield category.** The worker tests `if cached_category:`, so a
  stored empty category counts as a miss (`TriageApi.ShieldAnswers`).

## Left out

- HTTP routing, the FastAPI lifespan, dependency injection and
  `BackgroundTasks` scheduling: the worker is a function called directly with
  the job's arguments.
- The SQLAlchemy engine, sessions and table creation. A commit failure is not
  modelled, and neither is the `timestamp` column (a clock read).
- The embedding model and the HNSW index: distance is a parameter, and a query
  is exact nearest-neighbour search. Equally distant entries come back in an
  order fixed by their insertion order.
- A query with `n_results=0` is not modelled: the code never issues one.
- SHA-256 internals: the digest is a parameter that returns 32 bytes.
- The Ollama and Gemini network calls: replies and answers are inputs.
- `src/adapters/gemini_adapter.py` is not part of this model beyond the fact
  that it returns a category and never raises. Its prompt is not modelled.
- `src/core/config.py`: configuration loading and `sys.exit` on bad config. The
  categories are a parameter.
- Logging, real sleeping, the random draws and the unsynchronised race between
  concurrent workers. Sleeps are recorded as a list of delays; jitter and
  fallback user numbers are inputs.
- The generator's prompt text, `TOTAL_BATCHES` and `BATCH_SIZE`: one batch is
  modelled, as the script is configured.
- Record values that are not strings, and records that are not JSON objects.
- `Text.Lower`: folds ASCII letters only. Python's `str.lower()` also folds
  non-ASCII letters.
- `OllamaAdapter.Repr`: `repr` of characters past U+00FF is written verbatim.
  Python escapes non-printable ones.
- `OllamaAdapter.ListRepr`: states the brackets and the first item's literal,
  not that the list reads back item by item.
- `OllamaAdapter.Classify`: a body that is not JSON at all counts as a
  `requests` exception. That holds for `requests` 2.27 and later, whose
  `JSONDecodeError` is a `RequestException`; the pinned version is not part of
  this model.
- `OllamaAdapter.PromptLayout`: states where the description's line sits, but
  not that the description occurs only once in the prompt. An example's text
  may contain it too.
- `SemanticCache.AddToCache`: an add under an id already present is modelled
  as ignored, which is Chroma's behaviour outside the visible code.
- `SyntheticData.GenerateBatch`: a rate-limit message is recognised by a plain
  substring check, and the exception type is not modelled.
