/**
 * The translation service: a fixed English-to-Vietnamese dictionary, the translation
 * cache table and the `translate` endpoint that consults the cache before the dictionary.
 */
module Translation {
  import opened Wrappers
  import opened Text
  import opened Models

  /**
   * The pairs of the `DEMO_TRANSLATIONS` display in the source's order, the five words it
   * lists twice included. They are written as six parts only so that the verifier can check
   * each part on its own.
   */
  const DictionaryPart0: seq<(string, string)> := [
      ("hello", "xin chào"), ("world", "thế giới"), ("thank", "cảm ơn"),
      ("thanks", "cảm ơn"), ("you", "bạn"), ("love", "yêu"),
      ("friend", "bạn bè"), ("good", "tốt"), ("bad", "xấu"),
      ("yes", "vâng"), ("no", "không"), ("please", "làm ơn"),
      ("sorry", "xin lỗi"), ("help", "giúp đỡ"), ("time", "thời gian"),
      ("day", "ngày"), ("night", "đêm"), ("water", "nước")
  ]

  const DictionaryPart1: seq<(string, string)> := [
      ("food", "thức ăn"), ("house", "nhà"), ("work", "công việc"),
      ("school", "trường học"), ("book", "sách"), ("learn", "học"),
      ("speak", "nói"), ("listen", "nghe"), ("read", "đọc"),
      ("write", "viết"), ("understand", "hiểu"), ("know", "biết"),
      ("think", "nghĩ"), ("want", "muốn"), ("need", "cần"),
      ("like", "thích"), ("see", "thấy"), ("come", "đến")
  ]

  const DictionaryPart2: seq<(string, string)> := [
      ("go", "đi"), ("make", "làm"), ("take", "lấy"),
      ("give", "cho"), ("find", "tìm"), ("tell", "kể"),
      ("ask", "hỏi"), ("use", "dùng"), ("feel", "cảm thấy"),
      ("try", "thử"), ("leave", "rời"), ("call", "gọi"),
      ("keep", "giữ"), ("let", "để"), ("begin", "bắt đầu"),
      ("seem", "dường như"), ("show", "cho xem"), ("hear", "nghe")
  ]

  const DictionaryPart3: seq<(string, string)> := [
      ("play", "chơi"), ("run", "chạy"), ("move", "di chuyển"),
      ("live", "sống"), ("believe", "tin"), ("hold", "giữ"),
      ("bring", "mang"), ("happen", "xảy ra"), ("write", "viết"),
      ("provide", "cung cấp"), ("sit", "ngồi"), ("stand", "đứng"),
      ("lose", "mất"), ("pay", "trả"), ("meet", "gặp"),
      ("include", "bao gồm"), ("continue", "tiếp tục"), ("set", "đặt")
  ]

  const DictionaryPart4: seq<(string, string)> := [
      ("learn", "học"), ("change", "thay đổi"), ("lead", "dẫn"),
      ("understand", "hiểu"), ("watch", "xem"), ("follow", "theo"),
      ("stop", "dừng"), ("create", "tạo"), ("speak", "nói"),
      ("read", "đọc"), ("allow", "cho phép"), ("add", "thêm"),
      ("spend", "tiêu"), ("grow", "lớn lên"), ("open", "mở"),
      ("walk", "đi bộ"), ("win", "thắng"), ("offer", "đề nghị")
  ]

  const DictionaryPart5: seq<(string, string)> := [
      ("remember", "nhớ"), ("consider", "xem xét"), ("appear", "xuất hiện"),
      ("buy", "mua"), ("wait", "đợi"), ("serve", "phục vụ"),
      ("die", "chết"), ("send", "gửi"), ("expect", "mong đợi"),
      ("build", "xây dựng"), ("stay", "ở lại"), ("fall", "rơi"),
      ("cut", "cắt"), ("reach", "đạt"), ("kill", "giết"),
      ("remain", "còn lại")
  ]

  const DemoEntries: seq<(string, string)> :=
    DictionaryPart0 + DictionaryPart1 + DictionaryPart2 + DictionaryPart3 + DictionaryPart4 + DictionaryPart5

  /** `translation.startswith("[")`: how the endpoint recognises an untranslated word. */
  predicate IsPlaceholder(translation: string)
    ensures IsPlaceholder(translation) ==> translation != ""
    ensures translation != "" ==> (IsPlaceholder(translation) <==> !IsRealTranslation(translation))
  {
    StartsWith(translation, "[")
  }

  /** A value that the endpoint would cache: not empty and not bracketed. */
  predicate IsRealTranslation(translation: string) {
    translation != "" && translation[0] != '['
  }

  ghost predicate AllRealEntries(entries: seq<(string, string)>) {
    forall i :: 0 <= i < |entries| ==> IsRealTranslation(entries[i].1)
  }

  ghost predicate AllReal(dict: map<string, string>) {
    forall w :: w in dict ==> IsRealTranslation(dict[w])
  }

  /** Pair `i` of `entries` is `(w, v)` and no later pair has key `w`: it is the one a dict display keeps. */
  ghost predicate IsLastPairFor(entries: seq<(string, string)>, i: int, w: string, v: string) {
    0 <= i < |entries| && entries[i] == (w, v) && forall j :: i < j < |entries| ==> entries[j].0 != w
  }

  /**
   * The dictionary a Python dict display builds from its pairs: the keys are the listed
   * words, and the value of each is the one in the last pair listed with it.
   */
  function DictionaryOf(entries: seq<(string, string)>): (dict: map<string, string>)
    ensures dict.Keys == set i | 0 <= i < |entries| :: entries[i].0
    ensures forall w :: w in dict ==> exists i :: IsLastPairFor(entries, i, w, dict[w])
    ensures AllRealEntries(entries) ==> AllReal(dict)
  {
    if entries == [] then map[]
    else
      var last := entries[|entries| - 1];
      var earlier := entries[..|entries| - 1];
      var dict := DictionaryOf(earlier);
      assert forall i :: 0 <= i < |earlier| ==> earlier[i] == entries[i];
      assert entries == earlier + [last];
      LastPairWins(earlier, last, dict);
      dict[last.0 := last.1]
  }

  /** The step of `DictionaryOf`: the last pair's value replaces any earlier one for its key. */
  lemma LastPairWins(earlier: seq<(string, string)>, last: (string, string), dict: map<string, string>)
    requires forall w :: w in dict ==> exists i :: IsLastPairFor(earlier, i, w, dict[w])
    ensures var dict' := dict[last.0 := last.1];
      forall w :: w in dict' ==> exists i :: IsLastPairFor(earlier + [last], i, w, dict'[w])
  {
    var entries := earlier + [last];
    var dict' := dict[last.0 := last.1];
    forall w | w in dict'
      ensures exists i :: IsLastPairFor(entries, i, w, dict'[w])
    {
      if w == last.0 {
        assert IsLastPairFor(entries, |earlier|, w, dict'[w]);
      } else {
        var i :| IsLastPairFor(earlier, i, w, dict[w]);
        assert IsLastPairFor(entries, i, w, dict'[w]);
      }
    }
  }

  /** `DEMO_TRANSLATIONS`: lower-case English words mapped to Vietnamese. */
  const DemoTranslations: map<string, string> := DictionaryOf(DemoEntries)

  lemma ConcatIsReal(a: seq<(string, string)>, b: seq<(string, string)>)
    requires AllRealEntries(a) && AllRealEntries(b)
    ensures AllRealEntries(a + b)
  {
  }

  lemma Part0IsReal()
    ensures AllRealEntries(DictionaryPart0)
  {
  }

  lemma Part1IsReal()
    ensures AllRealEntries(DictionaryPart1)
  {
  }

  lemma Part2IsReal()
    ensures AllRealEntries(DictionaryPart2)
  {
  }

  lemma Part3IsReal()
    ensures AllRealEntries(DictionaryPart3)
  {
  }

  lemma Part4IsReal()
    ensures AllRealEntries(DictionaryPart4)
  {
  }

  lemma Part5IsReal()
    ensures AllRealEntries(DictionaryPart5)
  {
  }

  lemma DemoEntriesAreReal()
    ensures AllRealEntries(DemoEntries)
  {
    Part0IsReal(); Part1IsReal(); Part2IsReal(); Part3IsReal(); Part4IsReal(); Part5IsReal();
    var p01 := DictionaryPart0 + DictionaryPart1;
    ConcatIsReal(DictionaryPart0, DictionaryPart1);
    var p012 := p01 + DictionaryPart2;
    ConcatIsReal(p01, DictionaryPart2);
    var p0123 := p012 + DictionaryPart3;
    ConcatIsReal(p012, DictionaryPart3);
    var p01234 := p0123 + DictionaryPart4;
    ConcatIsReal(p0123, DictionaryPart4);
    ConcatIsReal(p01234, DictionaryPart5);
  }

  /** No dictionary value is empty or starts with `[`, so no dictionary hit looks like a placeholder. */
  lemma DictionaryHasNoPlaceholders()
    ensures forall w :: w in DemoTranslations ==>
      DemoTranslations[w] != "" && !IsPlaceholder(DemoTranslations[w])
  {
    DemoEntriesAreReal();
    RealEntriesMakeRealDictionary(DemoEntries);
  }

  lemma RealEntriesMakeRealDictionary(entries: seq<(string, string)>)
    requires AllRealEntries(entries)
    ensures forall w :: w in DictionaryOf(entries) ==>
      DictionaryOf(entries)[w] != "" && !IsPlaceholder(DictionaryOf(entries)[w])
  {
  }

  /**
   * `translate_word`: the dictionary entry for the lower-cased, stripped word, or the word
   * itself in brackets. The target language is accepted and ignored.
   */
  function TranslateWord(word: string, targetLanguage: string := "vi"): (r: string)
    ensures r != ""
    ensures IsPlaceholder(r) <==> Strip(Lower(word)) !in DemoTranslations
    ensures !IsPlaceholder(r) ==> r == DemoTranslations[Strip(Lower(word))]
    ensures IsPlaceholder(r) ==> r == "[" + word + "]"
  {
    DictionaryHasNoPlaceholders();
    var key := Strip(Lower(word));
    if key in DemoTranslations then DemoTranslations[key] else "[" + word + "]"
  }

  /** `request.word.strip().lower()`: the form in which the endpoint handles and caches a word. */
  function NormalizeWord(word: string): string {
    Lower(Strip(word))
  }

  /**
   * `translate_word` lower-cases and strips again; on a word that is already normalised that
   * changes nothing, so the endpoint looks the normalised word up as it is.
   */
  lemma NormalizedWordIsItsOwnKey(word: string)
    ensures Strip(Lower(NormalizeWord(word))) == NormalizeWord(word)
  {
    var w := Strip(word);
    LowerIdempotent(w);
    LowerStripCommute(w);
    StripIdempotent(word);
  }

  /** One row of the `translation_cache` table; its key, the word, is held by the map. */
  datatype CacheEntry = CacheEntry(translation: string, sourceLanguage: string, targetLanguage: string)

  /**
   * The `translation_cache` table. `word` is UNIQUE, so the table holds at most one entry
   * per word, whatever the target language.
   */
  type CacheTable = map<string, CacheEntry>

  /** Every cached word is stored lower-cased, as `cache_translation` writes it. */
  ghost predicate KeysLowered(cache: CacheTable) {
    forall w :: w in cache ==> Lower(w) == w
  }

  /**
   * `get_cached_translation`: the cached translation of the lower-cased word, provided the
   * entry was made for the requested target language.
   */
  function GetCachedTranslation(cache: CacheTable, word: string, targetLanguage: string): (r: Option<string>)
    ensures r.Some? <==> Lower(word) in cache && cache[Lower(word)].targetLanguage == targetLanguage
    ensures r.Some? ==> r.value == cache[Lower(word)].translation
  {
    var key := Lower(word);
    if key in cache && cache[key].targetLanguage == targetLanguage then Some(cache[key].translation) else None
  }

  /** `INSERT OR REPLACE` of the lower-cased word: the table after `cache_translation`. */
  function CacheInsertOrReplace(cache: CacheTable, word: string, translation: string,
                                sourceLanguage: string, targetLanguage: string): (after: CacheTable)
    ensures after.Keys == cache.Keys + {Lower(word)}
    ensures after[Lower(word)] == CacheEntry(translation, sourceLanguage, targetLanguage)
    ensures forall w :: w in cache && w != Lower(word) ==> after[w] == cache[w]
  {
    cache[Lower(word) := CacheEntry(translation, sourceLanguage, targetLanguage)]
  }

  /**
   * Reading the cache after writing it: the written word comes back for the target language
   * it was written with, and for no other one (the old entry for another target language is
   * gone); every other word reads as before.
   */
  lemma CacheReadAfterWrite(cache: CacheTable, word: string, translation: string,
                            sourceLanguage: string, targetLanguage: string,
                            word': string, targetLanguage': string)
    ensures var after := CacheInsertOrReplace(cache, word, translation, sourceLanguage, targetLanguage);
      GetCachedTranslation(after, word', targetLanguage') ==
        if Lower(word') == Lower(word) then
          (if targetLanguage' == targetLanguage then Some(translation) else None)
        else GetCachedTranslation(cache, word', targetLanguage')
  {
  }

  /** Writing keeps the keys lower-cased and adds a row only for a word not cached before. */
  lemma CacheWriteKeepsOneEntryPerWord(cache: CacheTable, word: string, translation: string,
                                       sourceLanguage: string, targetLanguage: string)
    requires KeysLowered(cache)
    ensures var after := CacheInsertOrReplace(cache, word, translation, sourceLanguage, targetLanguage);
      && KeysLowered(after)
      && after.Keys == cache.Keys + {Lower(word)}
      && |after| == if Lower(word) in cache then |cache| else |cache| + 1
  {
    LowerIdempotent(word);
  }

  /** What the `translate` endpoint answers and what the cache holds afterwards. */
  datatype TranslateOutcome = TranslateOutcome(response: Result<TranslationResponse, HttpError>, cache: CacheTable)

  const WordRequired := HttpError(400, "Word is required")

  /**
   * The `translate` endpoint: reject a blank word; answer from the cache when it holds a
   * non-empty translation for this word and target language; otherwise translate with the
   * dictionary and cache the result unless it is a placeholder.
   */
  function Translated(cache: CacheTable, request: TranslationRequest): (o: TranslateOutcome)
    ensures o.response.Success? ==>
      o.response.value.word == NormalizeWord(request.word) && o.response.value.language == request.targetLanguage
    ensures o.cache == cache || o.cache == CacheInsertOrReplace(cache, NormalizeWord(request.word),
      TranslateWord(NormalizeWord(request.word), request.targetLanguage), request.sourceLanguage, request.targetLanguage)
  {
    var word := NormalizeWord(request.word);
    if word == "" then
      TranslateOutcome(Failure(WordRequired), cache)
    else
      var cached := GetCachedTranslation(cache, word, request.targetLanguage);
      if cached.Some? && cached.value != "" then
        TranslateOutcome(
          Success(TranslationResponse(word, cached.value, request.targetLanguage, cached := true)),
          cache)
      else
        var translation := TranslateWord(word, request.targetLanguage);
        var cache' :=
          if !IsPlaceholder(translation) then
            CacheInsertOrReplace(cache, word, translation, request.sourceLanguage, request.targetLanguage)
          else cache;
        TranslateOutcome(
          Success(TranslationResponse(word, translation, request.targetLanguage, cached := false)),
          cache')
  }

  /** The cached translation for a request, if the cache answers it. */
  function CacheAnswer(cache: CacheTable, request: TranslationRequest): Option<string> {
    var cached := GetCachedTranslation(cache, NormalizeWord(request.word), request.targetLanguage);
    if cached.Some? && cached.value != "" then cached else None
  }

  /**
   * A request is refused with 400 exactly when its word is blank, and then the cache is not
   * touched; otherwise the answer is about the stripped, lower-cased word in the requested
   * target language.
   */
  lemma TranslateValidatesWord(cache: CacheTable, request: TranslationRequest)
    ensures var o := Translated(cache, request);
      && (o.response.Failure? <==> Strip(request.word) == "")
      && (o.response.Failure? ==> o.response.error.statusCode == 400 && o.cache == cache)
      && (o.response.Success? ==>
            && o.response.value.word == Lower(Strip(request.word))
            && o.response.value.word != ""
            && o.response.value.language == request.targetLanguage
            && o.response.value.translation != "")
  {
    var o := Translated(cache, request);
    assert |NormalizeWord(request.word)| == |Strip(request.word)|;
  }

  /** A cache hit is answered from the cache, flagged as cached, and leaves the cache alone. */
  lemma CacheHitIsServedFromCache(cache: CacheTable, request: TranslationRequest)
    requires Strip(request.word) != ""
    requires CacheAnswer(cache, request).Some?
    ensures var o := Translated(cache, request);
      && o.response.Success?
      && o.response.value.translation == CacheAnswer(cache, request).value
      && o.response.value.cached
      && o.cache == cache
  {
    assert |NormalizeWord(request.word)| == |Strip(request.word)|;
  }

  /**
   * On a cache miss the word is translated with the dictionary and the answer is not flagged
   * as cached. The cache changes exactly when the word is in the dictionary, and then only
   * by the new entry for the word.
   */
  lemma CacheMissCachesOnlyRealTranslations(cache: CacheTable, request: TranslationRequest)
    requires Strip(request.word) != ""
    requires CacheAnswer(cache, request).None?
    ensures var o := Translated(cache, request);
      var word := NormalizeWord(request.word);
      && o.response.Success?
      && !o.response.value.cached
      && (word in DemoTranslations ==>
            && o.response.value.translation == DemoTranslations[word]
            && o.cache == cache[word := CacheEntry(DemoTranslations[word], request.sourceLanguage, request.targetLanguage)]
            && o.cache != cache)
      && (word !in DemoTranslations ==>
            && o.response.value.translation == "[" + word + "]"
            && o.cache == cache)
  {
    var word := NormalizeWord(request.word);
    assert |word| == |Strip(request.word)|;
    NormalizedWordIsItsOwnKey(request.word);
    LowerIdempotent(Strip(request.word));
    DictionaryHasNoPlaceholders();
    if word in DemoTranslations {
      var entry := CacheEntry(DemoTranslations[word], request.sourceLanguage, request.targetLanguage);
      assert word in cache ==> cache[word] != entry;
    }
  }

  /** After a cache hit nothing has changed, so the same request is answered the same way again. */
  lemma RepeatAfterHit(cache: CacheTable, request: TranslationRequest)
    requires Strip(request.word) != ""
    requires CacheAnswer(cache, request).Some?
    ensures var first := Translated(cache, request);
      Translated(first.cache, request) == first
  {
    CacheHitIsServedFromCache(cache, request);
  }

  /** Once the request's word is cached for its target language, the cache answers the request. */
  lemma CacheAnswerAfterWrite(cache: CacheTable, request: TranslationRequest, translation: string)
    requires translation != ""
    ensures var written := cache[NormalizeWord(request.word) := CacheEntry(translation, request.sourceLanguage, request.targetLanguage)];
      CacheAnswer(written, request) == Some(translation)
  {
    LowerIdempotent(Strip(request.word));
  }

  /**
   * After a miss for a dictionary word, the cache holds the translation, so the same request
   * is then a hit with the same translation and changes nothing more.
   */
  lemma RepeatAfterCachedMiss(cache: CacheTable, request: TranslationRequest)
    requires Strip(request.word) != ""
    requires CacheAnswer(cache, request).None?
    requires NormalizeWord(request.word) in DemoTranslations
    ensures var first := Translated(cache, request);
      var second := Translated(first.cache, request);
      && second.cache == first.cache
      && second.response == Success(first.response.value.(cached := true))
  {
    CacheMissCachesOnlyRealTranslations(cache, request);
    var word := NormalizeWord(request.word);
    DictionaryHasNoPlaceholders();
    CacheAnswerAfterWrite(cache, request, DemoTranslations[word]);
    CacheHitIsServedFromCache(Translated(cache, request).cache, request);
  }

  /**
   * After a miss for a word outside the dictionary nothing was cached, so the same request
   * misses again and gets the same placeholder.
   */
  lemma RepeatAfterPlaceholder(cache: CacheTable, request: TranslationRequest)
    requires Strip(request.word) != ""
    requires CacheAnswer(cache, request).None?
    requires NormalizeWord(request.word) !in DemoTranslations
    ensures var first := Translated(cache, request);
      Translated(first.cache, request) == first
  {
    CacheMissCachesOnlyRealTranslations(cache, request);
  }

  /**
   * Sending the same request twice gives the same translation, and the second request
   * changes nothing; it is answered from the cache whenever the first one was, or the first
   * one produced a real translation.
   */
  lemma TranslateTwice(cache: CacheTable, request: TranslationRequest)
    ensures var first := Translated(cache, request);
      var second := Translated(first.cache, request);
      && second.response.Success? == first.response.Success?
      && second.cache == first.cache
      && (first.response.Success? ==>
            && second.response.value.translation == first.response.value.translation
            && ((first.response.value.cached || !IsPlaceholder(first.response.value.translation))
                  ==> second.response.value.cached))
  {
    if Strip(request.word) == "" {
      TranslateValidatesWord(cache, request);
    } else if CacheAnswer(cache, request).Some? {
      RepeatAfterHit(cache, request);
    } else if NormalizeWord(request.word) in DemoTranslations {
      RepeatAfterCachedMiss(cache, request);
    } else {
      RepeatAfterPlaceholder(cache, request);
      CacheMissCachesOnlyRealTranslations(cache, request);
    }
  }

  /**
   * Because the cache keeps one entry per word, translating a dictionary word for a second
   * target language evicts the entry made for the first one.
   */
  lemma OtherTargetEvictsCachedEntry(cache: CacheTable, request: TranslationRequest, otherTarget: string)
    requires Strip(request.word) != ""
    requires NormalizeWord(request.word) in DemoTranslations
    requires CacheAnswer(cache, request).None?
    requires otherTarget != request.targetLanguage
    ensures GetCachedTranslation(Translated(cache, request).cache, NormalizeWord(request.word), otherTarget) == None
  {
    CacheMissCachesOnlyRealTranslations(cache, request);
    LowerIdempotent(Strip(request.word));
  }

  /** Writing through `translate` keeps every cached word lower-cased. */
  lemma TranslateKeepsKeysLowered(cache: CacheTable, request: TranslationRequest)
    requires KeysLowered(cache)
    ensures KeysLowered(Translated(cache, request).cache)
  {
    if Strip(request.word) == "" {
      TranslateValidatesWord(cache, request);
    } else if CacheAnswer(cache, request).Some? {
      CacheHitIsServedFromCache(cache, request);
    } else {
      CacheMissCachesOnlyRealTranslations(cache, request);
      var word := NormalizeWord(request.word);
      if word in DemoTranslations {
        CacheWriteKeepsOneEntryPerWord(cache, word, DemoTranslations[word], request.sourceLanguage, request.targetLanguage);
      }
    }
  }

  /** The cache table as the backend holds it, written by `cache_translation` and `translate`. */
  class TranslationCache {
    var entries: CacheTable

    ghost predicate Valid()
      reads this
    {
      KeysLowered(entries)
    }

    constructor ()
      ensures Valid() && entries == map[]
    {
      entries := map[];
    }

    /** `cache_translation`: insert or replace the entry for the lower-cased word. */
    method CacheTranslation(word: string, translation: string, sourceLanguage: string, targetLanguage: string)
      requires Valid()
      modifies this
      ensures Valid()
      ensures entries == CacheInsertOrReplace(old(entries), word, translation, sourceLanguage, targetLanguage)
    {
      CacheWriteKeepsOneEntryPerWord(entries, word, translation, sourceLanguage, targetLanguage);
      entries := entries[Lower(word) := CacheEntry(translation, sourceLanguage, targetLanguage)];
    }

    /** The `translate` endpoint (POST). */
    method Translate(request: TranslationRequest) returns (r: Result<TranslationResponse, HttpError>)
      requires Valid()
      modifies this
      ensures Valid()
      ensures r == Translated(old(entries), request).response
      ensures entries == Translated(old(entries), request).cache
    {
      TranslateKeepsKeysLowered(entries, request);
      var word := Lower(Strip(request.word));
      if word == "" {
        return Failure(WordRequired);
      }
      var cached := GetCachedTranslation(entries, word, request.targetLanguage);
      if cached.Some? && cached.value != "" {
        return Success(TranslationResponse(word, cached.value, request.targetLanguage, cached := true));
      }
      var translation := TranslateWord(word, request.targetLanguage);
      if !IsPlaceholder(translation) {
        CacheTranslation(word, translation, request.sourceLanguage, request.targetLanguage);
      }
      r := Success(TranslationResponse(word, translation, request.targetLanguage, cached := false));
    }

    /** `translate_get`: the GET form, with the source language left at its default. */
    method TranslateGet(word: string, targetLanguage: string := "vi") returns (r: Result<TranslationResponse, HttpError>)
      requires Valid()
      modifies this
      ensures Valid()
      ensures r == Translated(old(entries), TranslationRequest(word, targetLanguage := targetLanguage)).response
      ensures entries == Translated(old(entries), TranslationRequest(word, targetLanguage := targetLanguage)).cache
    {
      r := Translate(TranslationRequest(word, targetLanguage := targetLanguage));
    }
  }
}
