/**
 * The request and response records of the backend. A field that the source declares
 * `Optional[...]` is an `Option`; a field with a default value has that default here.
 */
module Models {
  import opened Wrappers

  /** Date-times are opaque and totally ordered; the clock is always supplied by the caller. */
  type Timestamp = int

  /** What an endpoint raises instead of answering: a status code and a message. */
  datatype HttpError = HttpError(statusCode: int, detail: string)

  /** The fields a saved word carries; the word and its translation are required. */
  datatype VocabularyBase = VocabularyBase(
    originalWord: string,
    translation: string,
    contextSentence: Option<string> := None,
    videoId: Option<string> := None,
    videoTitle: Option<string> := None,
    language: Option<string> := Some("en"))

  /** A create request declares no field of its own beyond the base record. */
  type VocabularyCreate = VocabularyBase

  /** A partial update: every field may be left out, and a left-out field is not written. */
  datatype VocabularyUpdate = VocabularyUpdate(
    originalWord: Option<string> := None,
    translation: Option<string> := None,
    contextSentence: Option<string> := None,
    mastery: Option<int> := None)
  {
    /** At least one field is supplied, so the update has something to write. */
    predicate AnySupplied() {
      originalWord.Some? || translation.Some? || contextSentence.Some? || mastery.Some?
    }
  }

  /** A stored word as returned to the client: the base record plus its id, mastery and times. */
  datatype VocabularyResponse = VocabularyResponse(
    id: int,
    base: VocabularyBase,
    mastery: int := 0,
    timestamp: Timestamp,
    createdAt: Timestamp,
    updatedAt: Timestamp)

  datatype TranslationRequest = TranslationRequest(
    word: string,
    context: Option<string> := None,
    sourceLanguage: string := "en",
    targetLanguage: string := "vi")

  datatype TranslationResponse = TranslationResponse(
    word: string,
    translation: string,
    language: string,
    pronunciation: Option<string> := None,
    partOfSpeech: Option<string> := None,
    definitions: Option<seq<string>> := None,
    cached: bool := false)

  /** Only the word and its translation must be given; the language defaults to English. */
  lemma VocabularyBaseDefaults(originalWord: string, translation: string)
    ensures var b := VocabularyBase(originalWord, translation);
      && b.originalWord == originalWord && b.translation == translation
      && b.contextSentence == None && b.videoId == None && b.videoTitle == None
      && b.language == Some("en")
  {
  }

  /** An update built with no arguments supplies nothing. */
  lemma VocabularyUpdateDefaults()
    ensures var u := VocabularyUpdate();
      && u.originalWord == None && u.translation == None
      && u.contextSentence == None && u.mastery == None
      && !u.AnySupplied()
  {
  }

  /** A response whose mastery is not given reports mastery 0. */
  lemma VocabularyResponseDefaults(id: int, base: VocabularyBase, t: Timestamp, c: Timestamp, u: Timestamp)
    ensures var r := VocabularyResponse(id, base, timestamp := t, createdAt := c, updatedAt := u);
      r.id == id && r.base == base && r.mastery == 0
      && r.timestamp == t && r.createdAt == c && r.updatedAt == u
  {
  }

  /** Translation requests default to English source text and a Vietnamese target. */
  lemma TranslationRequestDefaults(word: string)
    ensures var q := TranslationRequest(word);
      q.word == word && q.context == None && q.sourceLanguage == "en" && q.targetLanguage == "vi"
  {
  }

  /** A translation response is not from the cache and carries no extras unless told so. */
  lemma TranslationResponseDefaults(word: string, translation: string, language: string)
    ensures var p := TranslationResponse(word, translation, language);
      && p.word == word && p.translation == translation && p.language == language
      && p.pronunciation == None && p.partOfSpeech == None && p.definitions == None
      && !p.cached
  {
  }
}
