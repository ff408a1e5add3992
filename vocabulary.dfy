/**
 * The vocabulary store: the `vocabulary` table, keyed by an AUTOINCREMENT id, and the
 * endpoints that list, read, create (upsert), update and delete its rows.
 */
module Vocabulary {
  import opened Wrappers
  import opened Text
  import opened Models

  /**
   * One row of the `vocabulary` table; its id is the key of the table map. The NOT NULL
   * columns `original_word` and `translation` are plain strings, the nullable ones options.
   * `mastery` is never NULL: it defaults to 0 and an update only writes a supplied value.
   */
  datatype Row = Row(
    originalWord: string,
    translation: string,
    contextSentence: Option<string>,
    videoId: Option<string>,
    videoTitle: Option<string>,
    language: Option<string>,
    mastery: int,
    timestamp: Timestamp,
    createdAt: Timestamp,
    updatedAt: Timestamp)

  type Table = map<int, Row>

  const NotFound := HttpError(404, "Vocabulary item not found")

  /** The body returned by a successful delete. */
  datatype DeleteResponse = DeleteResponse(message: string, id: int)

  /**
   * The response built from a stored row. `row["language"] or "en"` reports a NULL or empty
   * language as "en"; every other column is reported as stored.
   */
  function ToResponse(id: int, row: Row): (r: VocabularyResponse)
    ensures r.id == id && r.mastery == row.mastery
    ensures r.base.originalWord == row.originalWord && r.base.translation == row.translation
    ensures r.base.contextSentence == row.contextSentence
    ensures r.base.videoId == row.videoId && r.base.videoTitle == row.videoTitle
    ensures r.timestamp == row.timestamp && r.createdAt == row.createdAt && r.updatedAt == row.updatedAt
    ensures r.base.language.Some? && r.base.language.value != ""
    ensures row.language.Some? && row.language.value != "" ==> r.base.language == row.language
    ensures !(row.language.Some? && row.language.value != "") ==> r.base.language == Some("en")
  {
    var language := if row.language.Some? && row.language.value != "" then row.language else Some("en");
    VocabularyResponse(
      id,
      VocabularyBase(row.originalWord, row.translation, row.contextSentence, row.videoId, row.videoTitle, language),
      row.mastery,
      row.timestamp,
      row.createdAt,
      row.updatedAt)
  }

  /** `get_vocabulary_item`: the row with this id, or 404. */
  function GetItem(rows: Table, itemId: int): (r: Result<VocabularyResponse, HttpError>)
    ensures r.Success? <==> itemId in rows
    ensures r.Failure? ==> r.error == NotFound
    ensures r.Success? ==> r.value.id == itemId && r.value == ToResponse(itemId, rows[itemId])
  {
    if itemId in rows then Success(ToResponse(itemId, rows[itemId])) else Failure(NotFound)
  }

  // ---------------------------------------------------------------------------------------
  // Listing: search, ORDER BY timestamp DESC, LIMIT and OFFSET
  // ---------------------------------------------------------------------------------------

  /**
   * `original_word LIKE '%term%' OR translation LIKE '%term%'`, applied only when a non-empty
   * term is given; LIKE ignores ASCII case.
   */
  predicate MatchesSearch(row: Row, search: Option<string>)
    ensures search.None? || search.value == "" ==> MatchesSearch(row, search)
    ensures MatchesSearch(row, search) && search.Some? && search.value != "" ==>
      |search.value| <= |row.originalWord| || |search.value| <= |row.translation|
  {
    || search.None?
    || search.value == ""
    || Contains(Lower(row.originalWord), Lower(search.value))
    || Contains(Lower(row.translation), Lower(search.value))
  }

  /** The search ignores the case of the term: a term and its lower-cased form select the same rows. */
  lemma SearchIgnoresCase(row: Row, term: string)
    ensures MatchesSearch(row, Some(term)) <==> MatchesSearch(row, Some(Lower(term)))
  {
    LowerIdempotent(term);
  }

  /** The ids of the rows the query selects, before ordering and paging. */
  function Selected(rows: Table, search: Option<string>): (ids: set<int>)
    ensures ids <= rows.Keys
    ensures forall id :: id in ids <==> id in rows && MatchesSearch(rows[id], search)
  {
    set id | id in rows && MatchesSearch(rows[id], search)
  }

  /**
   * Row `a` may be listed before row `b`: a later timestamp comes first. SQLite leaves the
   * order of equal timestamps open; the model lists the smaller id first.
   */
  predicate ListedBefore(rows: Table, a: int, b: int)
    requires a in rows && b in rows
  {
    rows[a].timestamp > rows[b].timestamp || (rows[a].timestamp == rows[b].timestamp && a <= b)
  }

  /** `first` is listed before every id of `ids`. */
  predicate IsFirst(rows: Table, ids: set<int>, first: int)
    requires ids <= rows.Keys
  {
    first in ids && forall id :: id in ids ==> ListedBefore(rows, first, id)
  }

  /** A set with no member is the empty set. */
  lemma EmptyWithoutMembers(s: set<int>)
    ensures (forall id :: id !in s) ==> s == {}
  {
    if forall id :: id !in s {
      assert s == {};
    }
  }

  /** Every non-empty set of rows has a first one to list. */
  lemma {:induction false} FirstExists(rows: Table, ids: set<int>)
    requires ids <= rows.Keys && ids != {}
    ensures exists first :: IsFirst(rows, ids, first)
    decreases ids
  {
    EmptyWithoutMembers(ids);
    var some :| some in ids;
    var rest := ids - {some};
    if rest == {} {
      assert ids == {some};
      assert IsFirst(rows, ids, some);
    } else {
      FirstExists(rows, rest);
      var best :| IsFirst(rows, rest, best);
      if ListedBefore(rows, best, some) {
        assert IsFirst(rows, ids, best);
      } else {
        forall id | id in ids ensures ListedBefore(rows, some, id) {
          if id != some {
            assert ListedBefore(rows, best, id);
          }
        }
        assert IsFirst(rows, ids, some);
      }
    }
  }

  /** `ids` in listing order: newest timestamp first, each id once. */
  function OrderedIds(rows: Table, ids: set<int>): (r: seq<int>)
    requires ids <= rows.Keys
    ensures |r| == |ids|
    ensures forall i :: 0 <= i < |r| ==> r[i] in ids
    ensures forall id :: id in ids ==> id in r
    ensures forall i, j :: 0 <= i < j < |r| ==> r[i] != r[j]
    ensures forall i, j :: 0 <= i < j < |r| ==> ListedBefore(rows, r[i], r[j])
    decreases ids
  {
    if ids == {} then []
    else
      FirstExists(rows, ids);
      var first :| IsFirst(rows, ids, first);
      [first] + OrderedIds(rows, ids - {first})
  }

  function Min(a: int, b: int): int { if a <= b then a else b }

  /** `LIMIT limit OFFSET offset`: the part of `s` from position `offset`, at most `limit` long. */
  function Window<T>(s: seq<T>, limit: nat, offset: nat): (w: seq<T>)
    ensures |w| == Min(limit, if offset <= |s| then |s| - offset else 0)
    ensures forall i :: 0 <= i < |w| ==> w[i] == s[offset + i]
  {
    s[Min(offset, |s|)..Min(offset + limit, |s|)]
  }

  /** The list comprehension that turns the fetched rows into responses, in order. */
  function Responses(rows: Table, ids: seq<int>): (r: seq<VocabularyResponse>)
    requires forall i :: 0 <= i < |ids| ==> ids[i] in rows
    ensures |r| == |ids|
    ensures forall i :: 0 <= i < |ids| ==> r[i] == ToResponse(ids[i], rows[ids[i]])
  {
    seq(|ids|, i requires 0 <= i < |ids| => ToResponse(ids[i], rows[ids[i]]))
  }

  lemma ResponsesAppend(rows: Table, x: seq<int>, y: seq<int>)
    requires forall i :: 0 <= i < |x| ==> x[i] in rows
    requires forall i :: 0 <= i < |y| ==> y[i] in rows
    ensures Responses(rows, x) + Responses(rows, y) == Responses(rows, x + y)
  {
  }

  /** Two adjacent windows make up the window of their combined size. */
  lemma WindowsJoin<T>(s: seq<T>, limit1: nat, limit2: nat, offset: nat)
    ensures Window(s, limit1, offset) + Window(s, limit2, offset + limit1) == Window(s, limit1 + limit2, offset)
  {
    var lo, mid, hi := Min(offset, |s|), Min(offset + limit1, |s|), Min(offset + limit1 + limit2, |s|);
    assert s[lo..hi] == s[lo..mid] + s[mid..hi];
  }

  /**
   * `get_vocabulary`: the selected rows, newest first, from position `offset`, at most `limit`
   * of them. The endpoint's query bounds are its precondition.
   */
  function GetVocabulary(rows: Table, search: Option<string>, limit: int, offset: int): (r: seq<VocabularyResponse>)
    requires 1 <= limit <= 500 && 0 <= offset
    ensures |r| <= limit
    ensures |r| == Min(limit, if offset <= |Selected(rows, search)| then |Selected(rows, search)| - offset else 0)
    ensures forall i :: 0 <= i < |r| ==>
      && r[i].id in rows
      && r[i] == ToResponse(r[i].id, rows[r[i].id])
      && MatchesSearch(rows[r[i].id], search)
    ensures forall i :: 0 <= i < |r| ==>
      offset + i < |Selected(rows, search)| && r[i].id == OrderedIds(rows, Selected(rows, search))[offset + i]
    ensures forall i, j :: 0 <= i < j < |r| ==> r[i].id != r[j].id && r[i].timestamp >= r[j].timestamp
  {
    Responses(rows, Window(OrderedIds(rows, Selected(rows, search)), limit, offset))
  }

  /** A first page large enough for every selected row lists every one of them. */
  lemma FirstPageListsEverything(rows: Table, search: Option<string>, limit: int, id: int)
    requires 1 <= limit <= 500
    requires |Selected(rows, search)| <= limit
    requires id in rows && MatchesSearch(rows[id], search)
    ensures exists i :: 0 <= i < |GetVocabulary(rows, search, limit, 0)| && GetVocabulary(rows, search, limit, 0)[i].id == id
  {
    var ordered := OrderedIds(rows, Selected(rows, search));
    assert id in ordered;
    var i :| 0 <= i < |ordered| && ordered[i] == id;
    assert GetVocabulary(rows, search, limit, 0)[i].id == id;
  }

  /**
   * Paging is consistent: a page followed by the page that starts where it ends is the
   * page of their combined size.
   */
  lemma ConsecutivePagesJoin(rows: Table, search: Option<string>, limit1: int, limit2: int, offset: int)
    requires 1 <= limit1 && 1 <= limit2 && limit1 + limit2 <= 500 && 0 <= offset
    ensures GetVocabulary(rows, search, limit1, offset) + GetVocabulary(rows, search, limit2, offset + limit1)
         == GetVocabulary(rows, search, limit1 + limit2, offset)
  {
    var ordered := OrderedIds(rows, Selected(rows, search));
    WindowsJoin(ordered, limit1, limit2, offset);
    ResponsesAppend(rows, Window(ordered, limit1, offset), Window(ordered, limit2, offset + limit1));
  }

  // ---------------------------------------------------------------------------------------
  // Create (upsert)
  // ---------------------------------------------------------------------------------------

  /** `LOWER(original_word) = LOWER(?)`. */
  predicate SameWord(a: string, b: string) {
    Lower(a) == Lower(b)
  }

  /** The ids of the rows whose word equals `word` up to ASCII case. */
  function Matching(rows: Table, word: string): (ids: set<int>)
    ensures forall id :: id in ids <==> id in rows && SameWord(rows[id].originalWord, word)
  {
    set id | id in rows && SameWord(rows[id].originalWord, word)
  }

  /**
   * The row `create_vocabulary` inserts: the request's fields, mastery at its column default
   * 0, and the three timestamps all `now`. The request's language is written as given, so a
   * request with no language stores NULL rather than the column default.
   */
  function InsertedRow(item: VocabularyCreate, now: Timestamp): (r: Row)
    ensures r.originalWord == item.originalWord && r.translation == item.translation
    ensures r.contextSentence == item.contextSentence
    ensures r.videoId == item.videoId && r.videoTitle == item.videoTitle
    ensures r.language == item.language
    ensures r.mastery == 0
    ensures r.timestamp == now && r.createdAt == now && r.updatedAt == now
  {
    Row(item.originalWord, item.translation, item.contextSentence, item.videoId, item.videoTitle,
        item.language, 0, now, now, now)
  }

  /**
   * The row after `create_vocabulary` found it by its word: translation, context, video and
   * the `timestamp`/`updated_at` times are overwritten; the stored word (with its original
   * case), the language, the mastery and `created_at` are kept.
   */
  function Upserted(row: Row, item: VocabularyCreate, now: Timestamp): (r: Row)
    ensures r.originalWord == row.originalWord && r.language == row.language
    ensures r.mastery == row.mastery && r.createdAt == row.createdAt
    ensures r.translation == item.translation && r.contextSentence == item.contextSentence
    ensures r.videoId == item.videoId && r.videoTitle == item.videoTitle
    ensures r.timestamp == now && r.updatedAt == now
  {
    row.(translation := item.translation, contextSentence := item.contextSentence,
         videoId := item.videoId, videoTitle := item.videoTitle, timestamp := now, updatedAt := now)
  }

  // ---------------------------------------------------------------------------------------
  // Partial update
  // ---------------------------------------------------------------------------------------

  /** One `column = ?` item of the SET list that `update_vocabulary` builds. */
  datatype Assignment =
    | SetOriginalWord(word: string)
    | SetTranslation(translation: string)
    | SetContextSentence(sentence: string)
    | SetMastery(mastery: int)
    | SetUpdatedAt(at: Timestamp)

  function Assign(row: Row, a: Assignment): Row {
    match a
    case SetOriginalWord(w) => row.(originalWord := w)
    case SetTranslation(t) => row.(translation := t)
    case SetContextSentence(s) => row.(contextSentence := Some(s))
    case SetMastery(m) => row.(mastery := m)
    case SetUpdatedAt(at) => row.(updatedAt := at)
  }

  /** `UPDATE vocabulary SET <updates> WHERE id = ?` on one row, the items in order. */
  function AssignAll(row: Row, updates: seq<Assignment>): Row
    decreases |updates|
  {
    if updates == [] then row
    else Assign(AssignAll(row, updates[..|updates| - 1]), updates[|updates| - 1])
  }

  lemma AssignAllAppend(row: Row, updates: seq<Assignment>, a: Assignment)
    ensures AssignAll(row, updates + [a]) == Assign(AssignAll(row, updates), a)
  {
    assert (updates + [a])[..|updates|] == updates;
  }

  /**
   * No SET list can reach the video, the language, `timestamp` or `created_at`: these
   * columns keep their values through any update.
   */
  lemma {:induction false} AssignAllKeepsOtherColumns(row: Row, updates: seq<Assignment>)
    ensures var r := AssignAll(row, updates);
      && r.videoId == row.videoId && r.videoTitle == row.videoTitle
      && r.language == row.language
      && r.timestamp == row.timestamp && r.createdAt == row.createdAt
    decreases |updates|
  {
    if updates != [] {
      AssignAllKeepsOtherColumns(row, updates[..|updates| - 1]);
    }
  }

  /**
   * The row after `update_vocabulary`: every supplied field is written, every omitted one
   * kept; `updated_at` becomes `now` exactly when something was supplied; the video, the
   * language, `timestamp` and `created_at` never change, and an update that supplies nothing
   * leaves the row as it was.
   */
  function PartialUpdate(row: Row, item: VocabularyUpdate, now: Timestamp): (r: Row)
    ensures item.originalWord.Some? ==> r.originalWord == item.originalWord.value
    ensures item.originalWord.None? ==> r.originalWord == row.originalWord
    ensures item.translation.Some? ==> r.translation == item.translation.value
    ensures item.translation.None? ==> r.translation == row.translation
    ensures item.contextSentence.Some? ==> r.contextSentence == item.contextSentence
    ensures item.contextSentence.None? ==> r.contextSentence == row.contextSentence
    ensures item.mastery.Some? ==> r.mastery == item.mastery.value
    ensures item.mastery.None? ==> r.mastery == row.mastery
    ensures r.updatedAt == if item.AnySupplied() then now else row.updatedAt
    ensures r.videoId == row.videoId && r.videoTitle == row.videoTitle && r.language == row.language
    ensures r.timestamp == row.timestamp && r.createdAt == row.createdAt
    ensures !item.AnySupplied() ==> r == row
  {
    Row(
      item.originalWord.GetOr(row.originalWord),
      item.translation.GetOr(row.translation),
      if item.contextSentence.Some? then item.contextSentence else row.contextSentence,
      row.videoId,
      row.videoTitle,
      row.language,
      item.mastery.GetOr(row.mastery),
      row.timestamp,
      row.createdAt,
      if item.AnySupplied() then now else row.updatedAt)
  }

  /**
   * The SET list `update_vocabulary` builds: one item per supplied field, in the order word,
   * translation, context, mastery, then `updated_at = now` when the list is not empty. Run
   * against the stored row it yields `PartialUpdate`; it is empty exactly when nothing is
   * supplied, and then no UPDATE statement is issued.
   */
  method SetList(ghost row: Row, item: VocabularyUpdate, now: Timestamp) returns (updates: seq<Assignment>)
    ensures updates == [] <==> !item.AnySupplied()
    ensures AssignAll(row, updates) == PartialUpdate(row, item, now)
  {
    updates := [];
    ghost var pending := row;
    assert AssignAll(row, updates) == pending;
    if item.originalWord.Some? {
      var a := SetOriginalWord(item.originalWord.value);
      AssignAllAppend(row, updates, a);
      updates, pending := updates + [a], Assign(pending, a);
    }
    if item.translation.Some? {
      var a := SetTranslation(item.translation.value);
      AssignAllAppend(row, updates, a);
      updates, pending := updates + [a], Assign(pending, a);
    }
    if item.contextSentence.Some? {
      var a := SetContextSentence(item.contextSentence.value);
      AssignAllAppend(row, updates, a);
      updates, pending := updates + [a], Assign(pending, a);
    }
    if item.mastery.Some? {
      var a := SetMastery(item.mastery.value);
      AssignAllAppend(row, updates, a);
      updates, pending := updates + [a], Assign(pending, a);
    }
    if updates != [] {
      var a := SetUpdatedAt(now);
      AssignAllAppend(row, updates, a);
      updates, pending := updates + [a], Assign(pending, a);
    }
  }

  // ---------------------------------------------------------------------------------------
  // The table
  // ---------------------------------------------------------------------------------------

  /**
   * The `vocabulary` table. `nextId` is the AUTOINCREMENT counter: one more than the largest
   * id ever handed out, so an id is never handed out twice, even after its row is deleted.
   * `issued` is the set of all ids handed out so far.
   */
  class VocabularyTable {
    var rows: Table
    var nextId: int
    ghost var issued: set<int>

    ghost predicate Valid()
      reads this
    {
      && rows.Keys <= issued
      && 1 <= nextId
      && forall id :: id in issued ==> 1 <= id < nextId
    }

    /** The freshly created, empty table. */
    constructor ()
      ensures Valid()
      ensures rows == map[] && issued == {} && nextId == 1
    {
      rows := map[];
      nextId := 1;
      issued := {};
    }

    /**
     * `create_vocabulary`. When some row has the same word up to case, that row (any one of
     * them, if several) is overwritten in place and keeps its id, so the number of rows stays
     * the same. Otherwise one row is added under a fresh id, larger than every id handed out
     * before. Either way the answer is the stored row, which `GetItem` now returns too.
     */
    method Create(item: VocabularyCreate, now: Timestamp) returns (r: VocabularyResponse)
      requires Valid()
      modifies this
      ensures Valid()
      ensures r.id in rows && GetItem(rows, r.id) == Success(r)
      ensures SameWord(rows[r.id].originalWord, item.originalWord)
      ensures Matching(old(rows), item.originalWord) != {} ==>
        && r.id in Matching(old(rows), item.originalWord)
        && rows == old(rows)[r.id := Upserted(old(rows)[r.id], item, now)]
        && |rows| == |old(rows)|
        && nextId == old(nextId) && issued == old(issued)
      ensures Matching(old(rows), item.originalWord) == {} ==>
        && r.id == old(nextId)
        && r.id !in old(issued)
        && (forall id :: id in old(issued) ==> id < r.id)
        && rows == old(rows)[r.id := InsertedRow(item, now)]
        && |rows| == |old(rows)| + 1
        && nextId == old(nextId) + 1 && issued == old(issued) + {r.id}
    {
      var existing := Matching(rows, item.originalWord);
      var itemId;
      if existing != {} {
        EmptyWithoutMembers(existing);
        itemId :| itemId in existing;
        rows := rows[itemId := Upserted(rows[itemId], item, now)];
      } else {
        itemId := nextId;
        rows := rows[itemId := InsertedRow(item, now)];
        issued := issued + {itemId};
        nextId := nextId + 1;
      }
      r := ToResponse(itemId, rows[itemId]);
    }

    /**
     * `update_vocabulary`: 404 for an unknown id, with nothing changed. Otherwise the SET list
     * is built from the supplied fields, `updated_at` is added when the list is not empty, and
     * the row becomes `PartialUpdate` of itself; no other row changes.
     */
    method Update(itemId: int, item: VocabularyUpdate, now: Timestamp) returns (r: Result<VocabularyResponse, HttpError>)
      requires Valid()
      modifies this
      ensures Valid()
      ensures nextId == old(nextId) && issued == old(issued)
      ensures itemId !in old(rows) ==> r == Failure(NotFound) && rows == old(rows)
      ensures itemId in old(rows) ==>
        && rows == old(rows)[itemId := PartialUpdate(old(rows)[itemId], item, now)]
        && r == GetItem(rows, itemId)
        && r.Success?
    {
      if itemId !in rows {
        return Failure(NotFound);
      }
      var existing := rows[itemId];
      var updates := SetList(existing, item, now);
      if updates != [] {
        rows := rows[itemId := AssignAll(existing, updates)];
      }
      r := GetItem(rows, itemId);
    }

    /**
     * `delete_vocabulary`: 404 for an unknown id, with nothing changed; otherwise exactly that
     * row is removed, every other row is left as it was, and the id is not handed out again.
     */
    method Delete(itemId: int) returns (r: Result<DeleteResponse, HttpError>)
      requires Valid()
      modifies this
      ensures Valid()
      ensures nextId == old(nextId) && issued == old(issued)
      ensures itemId !in old(rows) ==> r == Failure(NotFound) && rows == old(rows)
      ensures itemId in old(rows) ==>
        && r == Success(DeleteResponse("Vocabulary item deleted", itemId))
        && rows == old(rows) - {itemId}
        && |rows| == |old(rows)| - 1
        && GetItem(rows, itemId) == Failure(NotFound)
    {
      if itemId !in rows {
        return Failure(NotFound);
      }
      rows := rows - {itemId};
      r := Success(DeleteResponse("Vocabulary item deleted", itemId));
    }
  }
}
