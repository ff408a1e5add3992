# Vocabulary store and translation service

A model of the backend of a language-learning browser extension. The backend does two jobs:

- It saves vocabulary words that a learner picked up while watching videos.
- It translates single English words into Vietnamese, through a translation cache.

The model is written in Dafny and split into five modules:

- `Wrappers` holds `Option` and `Result`. `Result` stands for an endpoint's answer: either a response, or the `HTTPException` it raises, as an `HttpError` value.
- `Text` holds Python's `str.strip()` with the full `str.isspace()` character set, ASCII lower-casing, `startswith`, and substring containment.
- `Models` holds the Pydantic request and response records. Each has its default field values, given as constructor defaults.
- `Translation` holds the following:
  - the `DEMO_TRANSLATIONS` dictionary;
  - `translate_word`;
  - the cache lookup and the cache write;
  - the `translate` endpoint. `Translated` specifies it as a pure function of the cache and the request. The `TranslationCache` class implements it over a mutable `entries` map, which is the `translation_cache` table.
- `Vocabulary` models the `vocabulary` table as the class `VocabularyTable`:
  - a `rows` map from id to `Row`;
  - the AUTOINCREMENT counter `nextId`;
  - the ghost set `issued` of every id handed out so far.

  The read-only endpoints are functions over the `rows` map. These are the listing with search, ordering and paging, and the single read. The writing endpoints are methods of the class. These are create, which upserts; update, which is partial; and delete.

The clock is a parameter (`now`) of every operation that writes a time.

## Model

| member | source | states |
|---|---|---|
| `Text.Strip` | backend/app/routes/translate.py:158 | `str.strip()`: the result is the infix that remains after the leading whitespace run. Everything cut off on either side is whitespace. A non-empty result neither starts nor ends with whitespace. The result is empty exactly when the input is all whitespace. |
| `Text.Lower` | backend/app/routes/translate.py:174 | Each character is replaced by its lower-case form: an ASCII capital moves 32 code points down and every other character is kept. The length is kept and no upper-case letter remains. |
| `Text.StripIdempotent` | backend/app/routes/translate.py:174 | Stripping an already stripped word changes nothing. |
| `Text.LowerStripCommute` | backend/app/routes/translate.py:158 | `w.lower().strip()` (in `translate_word`) equals `w.strip().lower()` (in `translate`). |
| `Models.VocabularyBaseDefaults` | backend/app/models/vocabulary.py:10-17 | Only the word and its translation are required. Context, video id and video title default to none, and the language defaults to "en". |
| `Models.VocabularyUpdateDefaults` | backend/app/models/vocabulary.py:25-30 | Every update field defaults to none, so an update built with no arguments supplies nothing. |
| `Models.VocabularyResponseDefaults` | backend/app/models/vocabulary.py:33-39 | A response extends the base record with an id and three timestamps. Its mastery defaults to 0. |
| `Models.TranslationRequestDefaults` | backend/app/models/vocabulary.py:45-50 | The source language defaults to "en", the target language to "vi", and the context to none. |
| `Models.TranslationResponseDefaults` | backend/app/models/vocabulary.py:53-61 | `cached` defaults to false. Pronunciation, part of speech and definitions default to none. |
| `Translation.DictionaryOf` | backend/app/routes/translate.py:13-121 | A dict display: its keys are exactly the listed words. Each key's value is the one in the last pair listed with that key. If every listed value is a real translation, so is every dictionary value. |
| `Translation.LastPairWins` | backend/app/routes/translate.py:13-121 | A pair added at the end of a dict display replaces any earlier value for its key. Every other key keeps the value of its own last pair. |
| `Translation.DictionaryHasNoPlaceholders` | backend/app/routes/translate.py:13-121 | No `DEMO_TRANSLATIONS` value is empty or starts with `[`. |
| `Translation.IsPlaceholder` | backend/app/routes/translate.py:193 | `startswith("[")`: a placeholder is never empty. A non-empty translation is a placeholder exactly when it is not a real translation, which is what the endpoint caches. |
| `Translation.TranslateWord` | backend/app/routes/translate.py:153-165 | The result is never empty. It is a placeholder exactly when the lower-cased, stripped word is not a dictionary key. A hit is the dictionary value. A miss is `"[" + word + "]"`. |
| `Translation.NormalizedWordIsItsOwnKey` | backend/app/routes/translate.py:174-190 | `translate_word` normalises again, which does not change a word that `translate` has already normalised. |
| `Translation.GetCachedTranslation` | backend/app/routes/translate.py:124-136 | There is an answer exactly when the lower-cased word is cached for the requested target language. The answer is the cached translation. |
| `Translation.CacheInsertOrReplace` | backend/app/routes/translate.py:145-149 | `INSERT OR REPLACE` of the lower-cased word: that word's entry becomes the new one, whatever its target language was. Every other entry stays as it was, and no other key appears. |
| `Translation.CacheReadAfterWrite` | backend/app/routes/translate.py:139-150 | After the cache is written, a read of the same word gives the new translation for the new target language and nothing for any other target language. Other words read as before. |
| `Translation.CacheWriteKeepsOneEntryPerWord` | backend/app/routes/translate.py:145-149 | `INSERT OR REPLACE` on the UNIQUE word keeps the keys lower-cased. It adds an entry only for a word not cached before, so the cache holds at most one entry per word. |
| `Translation.Translated` | backend/app/routes/translate.py:168-206 | The pure definition of `translate`. A successful answer is about the normalised word in the requested target language. The cache either stays as it was or gets the `INSERT OR REPLACE` of that word's `translate_word` result. |
| `Translation.TranslateValidatesWord` | backend/app/routes/translate.py:174-177 | A request fails with 400 exactly when its stripped word is empty, and then the cache is unchanged. A successful answer is about the stripped, lower-cased word in the target language, and its translation is not empty. |
| `Translation.CacheHitIsServedFromCache` | backend/app/routes/translate.py:179-187 | When the cache holds a non-empty translation for the word and target language, that translation is answered with `cached` set, and the cache is unchanged. |
| `Translation.CacheMissCachesOnlyRealTranslations` | backend/app/routes/translate.py:189-206 | On a miss the answer has `cached` false. A dictionary word is answered with its translation, and the cache changes by exactly that word's new entry. A word outside the dictionary is answered with a placeholder, and the cache is unchanged. |
| `Translation.CacheAnswerAfterWrite` | backend/app/routes/translate.py:130-133 | Once a request's normalised word is cached with a non-empty translation for its target language, the cache answers that request with the translation. |
| `Translation.RepeatAfterHit` | backend/app/routes/translate.py:179-187 | After a cache hit the cache is unchanged, so the same request gets exactly the same answer again. |
| `Translation.RepeatAfterCachedMiss` | backend/app/routes/translate.py:189-206 | After a miss on a dictionary word, the same request is a cache hit. Its answer equals the first one except that `cached` is set, and the cache stays as it is. |
| `Translation.RepeatAfterPlaceholder` | backend/app/routes/translate.py:189-206 | After a miss on a word outside the dictionary nothing was cached, so the same request gets exactly the same placeholder answer again. |
| `Translation.TranslateTwice` | backend/app/routes/translate.py:168-206 | A repeated request gives the same translation and does not change the cache again. It is served from the cache whenever the first request was, or the first request produced a real translation. |
| `Translation.OtherTargetEvictsCachedEntry` | backend/app/routes/translate.py:145-149 | Translating a dictionary word for one target language removes its cached entry for any other target language. |
| `Translation.TranslateKeepsKeysLowered` | backend/app/routes/translate.py:168-206 | The endpoint keeps every cached word lower-cased. |
| `Translation.TranslationCache.constructor` | backend/app/database.py:58-67 | The `translation_cache` table starts empty, and its keys are trivially lower-cased. |
| `Translation.TranslationCache.CacheTranslation` | backend/app/routes/translate.py:139-150 | The cache becomes its old content with the lower-cased word's entry inserted or replaced. Keys stay lower-cased. |
| `Translation.TranslationCache.Translate` | backend/app/routes/translate.py:168-206 | The answer and the new cache are those of `Translated` applied to the old cache. |
| `Translation.TranslationCache.TranslateGet` | backend/app/routes/translate.py:209-213 | This is the GET form: `translate` of a request built from the word and target language, with the source language at its default. |
| `Vocabulary.ToResponse` | backend/app/routes/vocabulary.py:80-92 | Every column is reported as stored, except the language. A NULL or empty language is reported as "en", so the reported language is never empty. |
| `Vocabulary.GetItem` | backend/app/routes/vocabulary.py:69-92 | The answer is the row's response exactly when the id is in the table. Otherwise it is 404 "Vocabulary item not found". |
| `Vocabulary.MatchesSearch` | backend/app/routes/vocabulary.py:29-38 | With no term or an empty term every row matches. A row matches a non-empty term only if the term is no longer than its word or its translation. |
| `Vocabulary.SearchIgnoresCase` | backend/app/routes/vocabulary.py:33 | `LIKE` ignores ASCII case: a term and its lower-cased form select the same rows. |
| `Vocabulary.Selected` | backend/app/routes/vocabulary.py:29-38 | These are exactly the rows whose word or translation contains the search term, ignoring case. With no term or an empty term, every row is selected. |
| `Vocabulary.OrderedIds` | backend/app/routes/vocabulary.py:29-47 | Each selected id appears exactly once, and a later timestamp always comes first. |
| `Vocabulary.FirstExists` | backend/app/routes/vocabulary.py:34-43 | Every non-empty selection has a row that `ORDER BY timestamp DESC` lists first. |
| `Vocabulary.Window` | backend/app/routes/vocabulary.py:35-46 | `LIMIT`/`OFFSET` gives the elements from position `offset` on, at most `limit` of them, and none when `offset` is past the end. |
| `Vocabulary.GetVocabulary` | backend/app/routes/vocabulary.py:19-66 | Given `1 <= limit <= 500` and `offset >= 0`, the list has at most `limit` items and exactly as many as the window holds. Item `i` is the row at position `offset + i` of the newest-first order of the matching rows. Each item is that stored row's response, no row is listed twice, and timestamps never increase down the list. |
| `Vocabulary.FirstPageListsEverything` | backend/app/routes/vocabulary.py:19-66 | When every match fits on the first page, every matching row is listed. |
| `Vocabulary.WindowsJoin` | backend/app/routes/vocabulary.py:35-46 | Two adjacent `LIMIT`/`OFFSET` windows make up the window of their combined size. |
| `Vocabulary.ConsecutivePagesJoin` | backend/app/routes/vocabulary.py:35-46 | In the model's order (timestamp, then id), a page followed by the page that starts where it ends equals the page of their combined size. |
| `Vocabulary.Matching` | backend/app/routes/vocabulary.py:102-105 | These are exactly the rows whose word equals the new word under `LOWER()`. |
| `Vocabulary.InsertedRow` | backend/app/routes/vocabulary.py:136-153 | A new row has the request's fields and its language as given. Mastery is 0, and timestamp, created_at and updated_at all equal `now`. |
| `Vocabulary.Upserted` | backend/app/routes/vocabulary.py:112-131 | The upsert overwrites translation, context, video id, video title, timestamp and updated_at. It keeps the stored word, language, mastery and created_at. |
| `Vocabulary.AssignAllAppend` | backend/app/routes/vocabulary.py:205-210 | Adding an item at the end of the SET list applies it after the earlier ones. |
| `Vocabulary.AssignAllKeepsOtherColumns` | backend/app/routes/vocabulary.py:188-203 | No SET list can change the video id, video title, language, timestamp or created_at. |
| `Vocabulary.PartialUpdate` | backend/app/routes/vocabulary.py:188-213 | Each supplied field is written and each omitted one kept. updated_at becomes `now` exactly when something is supplied. Video, language, timestamp and created_at never change. An update that supplies nothing leaves the row as it was. |
| `Vocabulary.SetList` | backend/app/routes/vocabulary.py:188-207 | The SET list is empty exactly when no field is supplied. Applied to the stored row, it gives `PartialUpdate`. |
| `Vocabulary.VocabularyTable.constructor` | backend/app/database.py:41-55 | The new table is empty and the first id to hand out is 1. |
| `Vocabulary.VocabularyTable.Create` | backend/app/routes/vocabulary.py:95-172 | See the numbered list below the table. |
| `Vocabulary.VocabularyTable.Update` | backend/app/routes/vocabulary.py:175-231 | An unknown id gives 404 and changes nothing. Otherwise exactly that row becomes `PartialUpdate` of itself and the answer is its new response. Ids are unaffected. |
| `Vocabulary.VocabularyTable.Delete` | backend/app/routes/vocabulary.py:234-247 | An unknown id gives 404 and changes nothing. Otherwise exactly that row is removed, the row count drops by one, the id then reads as 404, and it is never handed out again. |

The contract of `Vocabulary.VocabularyTable.Create` states:

1. On a case-insensitive match, some matching row is upserted and keeps its id. The row count is unchanged.
2. Otherwise one row is inserted, under a fresh id larger than every id handed out before.
3. In both cases the answer is what `GetItem` returns for the stored row.

## Left out

- `get_vocabulary_stats` (backend/app/routes/vocabulary.py:250-281) is not part of this model. It depends on SQLite's `DATE('now')` and on a floating-point `AVG`/`round`.
- The FastAPI application, CORS and server start-up in backend/app/main.py are not part of this model. Neither are the connection, commit and reset plumbing of backend/app/database.py. All of that is I/O and wiring. The schema's constraints are kept as facts:
  - AUTOINCREMENT ids are never reused. This is the `Valid` invariant together with `issued`.
  - The word and translation columns are NOT NULL.
  - The word in the translation cache is UNIQUE.
- The HTTP, async and Pydantic validation layers are not modelled. An `HTTPException` is a `Failure` value. The `Query(ge=1, le=500)` and `Query(ge=0)` bounds are the precondition of `GetVocabulary`.
- Date-times are an abstract ordered `Timestamp`, and the clock is a parameter. ISO-format parsing and the `datetime.now()` fallback for a NULL time column are left out, because the model never stores a NULL time.
- `Vocabulary.MatchesSearch` treats the search term as a literal substring. The `%` and `_` wildcards that a term may itself contain are not interpreted.
- `Text.Lower` folds ASCII letters only. This is exactly what SQLite's `LOWER()` and `LIKE` do. Python's `str.lower()` also folds non-ASCII letters. The dictionary keys are ASCII, but a non-ASCII upper-case word can still be normalised differently by the model than by Python's `str.lower()`.
- `Vocabulary.OrderedIds`: SQLite leaves the order of rows with equal timestamps unspecified. The model lists the smaller id first, which is one of the orders SQLite may produce.
- `Vocabulary.ConsecutivePagesJoin` holds because of that fixed tie order. SQLite need not order rows with equal timestamps the same way in two queries with different `LIMIT`/`OFFSET`, so the source does not promise that pages join when timestamps tie.
- `Vocabulary.VocabularyTable.Create`, `Vocabulary.VocabularyTable.Update`: ids and `mastery` are unbounded integers. SQLite's INTEGER is 64-bit. AUTOINCREMENT fails with SQLITE_FULL once the id would pass 2^63-1, and the sqlite3 driver raises OverflowError for a `mastery` outside 64 bits. Neither failure is modelled.
- `Vocabulary.VocabularyTable.Create` picks any matching row when several rows have the same word up to case. This can happen after an update renames a word. Which row SQLite's `fetchone` returns is not modelled.
- `Translation.TranslateWord` accepts the target language and ignores it, as the source does. The dictionary is English to Vietnamese whatever language is requested.
- `DEMO_TRANSLATIONS` lists five words twice. The model keeps every pair in order, and `DictionaryOf` lets the later pair win, as a Python dict display does. Only the absence of placeholders is proved about the concrete dictionary. Individual lookups such as "hello" are not proved.
- The browser-extension code, which covers subtitle capture, parsing and overlay sync, is not part of this model.
