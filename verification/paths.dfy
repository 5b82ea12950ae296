/**
 * Note ids as they arrive in the request path.
 *
 * The handlers take `id` from the path as text. The cache key is built from
 * that text (backend/server.js:40, 63, 105, 122), while the table compares it
 * with its integer id column, where `5` and `05` are the same id. Two
 * spellings of one id therefore share a row but not a cache key, and a write
 * through one spelling leaves a live entry under the other.
 *
 * The `AsWritten` handlers model the code as it stands; the `ByPath` handlers
 * derive the key from the parsed id, which is what the rest of the model does.
 */
module RawPaths {
  import opened Wrappers
  import opened CacheKeys
  import opened Notes
  import opened Cache
  import opened Coordinator
  import opened Consistency

  /** A handler either answers, or fails because the table rejects the path segment as an integer (500). */
  datatype Outcome = Answered(response: Response) | Failed

  datatype PathStep = PathStep(outcome: Outcome, after: State)

  /** The id the table reads from a path segment: one or more digits, leading zeros allowed. */
  function ParsePathId(raw: string): (r: Option<nat>)
    ensures |raw| >= 1 && AllDigits(raw) ==> r == Some(DigitsValue(raw))
    ensures r.Some? ==> |raw| >= 1 && AllDigits(raw)
  {
    if |raw| >= 1 && AllDigits(raw) then Some(DigitsValue(raw)) else None
  }

  /** Every id, written as the client writes it, reads back as itself. */
  lemma ParsePathIdOfDecimal(id: nat)
    ensures ParsePathId(Decimal(id)) == Some(id)
  {
    DecimalRoundTrip(id);
  }

  /** `getCacheKey` applied to the raw path segment. */
  function RawCacheKey(raw: string): (key: string)
    ensures Canonical(raw) ==> key == CacheKey(DigitsValue(raw))
    ensures ParseKey(key) == if Canonical(raw) then Some(DigitsValue(raw)) else None
    ensures key != AllNotesKey
  {
    var key := NotePrefix + raw;
    assert key[0] != AllNotesKey[0];
    assert key[..|NotePrefix|] == NotePrefix && key[|NotePrefix|..] == raw;
    if Canonical(raw) then CanonicalRoundTrip(raw); key else key
  }

  /** Distinct path texts give distinct keys. */
  lemma RawCacheKeyInjective(a: string, b: string)
    ensures RawCacheKey(a) == RawCacheKey(b) <==> a == b
  {
    if RawCacheKey(a) == RawCacheKey(b) {
      assert a == RawCacheKey(a)[|NotePrefix|..];
      assert b == RawCacheKey(b)[|NotePrefix|..];
    }
  }

  // ---------------------------------------------------------------------------
  // As written

  /** GET one note with the key taken from the raw segment (backend/server.js:61-80). */
  function GetOneAsWritten(s: State, raw: string): (r: PathStep)
    ensures Live(s.cache, RawCacheKey(raw), s.clock) ==>
      r == PathStep(Answered(Ok(s.cache[RawCacheKey(raw)].value)), s)
    ensures !Live(s.cache, RawCacheKey(raw), s.clock) && ParsePathId(raw).None? ==> r == PathStep(Failed, s)
    ensures !Live(s.cache, RawCacheKey(raw), s.clock) && ParsePathId(raw).Some? ==>
      var id := ParsePathId(raw).value;
      && (id !in s.store ==> r == PathStep(Answered(NotFound(NotFoundMessage)), s))
      && (id in s.store ==>
            && r.outcome == Answered(Ok(OneNote(Row(id, s.store[id]))))
            && r.after == s.(cache := r.after.cache)
            && RawCacheKey(raw) in r.after.cache
            && r.after.cache[RawCacheKey(raw)] == Entry(OneNote(Row(id, s.store[id])), s.clock + TtlSeconds)
            && SameExcept(s.cache, r.after.cache, {RawCacheKey(raw)}))
  {
    var key := RawCacheKey(raw);
    match Get(s.cache, key, s.clock)
    case Some(note) => PathStep(Answered(Ok(note)), s)
    case None =>
      match ParsePathId(raw)
      case None => PathStep(Failed, s)
      case Some(id) =>
        match SelectById(s.store, id)
        case None => PathStep(Answered(NotFound(NotFoundMessage)), s)
        case Some(row) => PathStep(Answered(Ok(OneNote(row))), s.(cache := Set(s.cache, key, OneNote(row), s.clock)))
  }

  /** PUT a note, invalidating the key of the raw segment (backend/server.js:96-112). */
  function UpdateAsWritten(s: State, raw: string, title: string, content: string): (r: PathStep)
    ensures ParsePathId(raw).None? ==> r == PathStep(Failed, s)
    ensures ParsePathId(raw).Some? ==>
      var id := ParsePathId(raw).value;
      && (id !in s.store ==> r == PathStep(Answered(NotFound(NotFoundMessage)), s))
      && (id in s.store ==>
            && r.after.store == s.store[id := Note(title, content, s.store[id].createdAt, s.clock)]
            && r.outcome == Answered(Ok(OneNote(Row(id, r.after.store[id]))))
            && r.after.nextId == s.nextId && r.after.clock == s.clock
            && RawCacheKey(raw) !in r.after.cache && AllNotesKey !in r.after.cache
            && SameExcept(s.cache, r.after.cache, {RawCacheKey(raw), AllNotesKey}))
  {
    match ParsePathId(raw)
    case None => PathStep(Failed, s)
    case Some(id) =>
      var touched := TouchUpdatedAt(s.store, id, s.clock);
      var (store, result) := UpdateFields(touched, id, title, content);
      match result
      case None => PathStep(Answered(NotFound(NotFoundMessage)), s.(store := store))
      case Some(row) =>
        var cache := Del(Del(s.cache, RawCacheKey(raw)), AllNotesKey);
        PathStep(Answered(Ok(OneNote(row))), s.(store := store, cache := cache))
  }

  /** DELETE a note, invalidating the key of the raw segment (backend/server.js:115-129). */
  function DeleteAsWritten(s: State, raw: string): (r: PathStep)
    ensures ParsePathId(raw).None? ==> r == PathStep(Failed, s)
    ensures ParsePathId(raw).Some? ==>
      var id := ParsePathId(raw).value;
      && (id !in s.store ==> r == PathStep(Answered(NotFound(DeleteNotFoundMessage)), s))
      && (id in s.store ==>
            && r.outcome == Answered(Ok(Message(DeletedMessage)))
            && r.after.store == s.store - {id}
            && r.after.nextId == s.nextId && r.after.clock == s.clock
            && RawCacheKey(raw) !in r.after.cache && AllNotesKey !in r.after.cache
            && SameExcept(s.cache, r.after.cache, {RawCacheKey(raw), AllNotesKey}))
  {
    match ParsePathId(raw)
    case None => PathStep(Failed, s)
    case Some(id) =>
      var (store, result) := DeleteById(s.store, id);
      match result
      case None => PathStep(Answered(NotFound(DeleteNotFoundMessage)), s.(store := store))
      case Some(_) =>
        var cache := Del(Del(s.cache, RawCacheKey(raw)), AllNotesKey);
        PathStep(Answered(Ok(Message(DeletedMessage))), s.(store := store, cache := cache))
  }

  /** `5` and `05` name the same row but different cache keys. */
  lemma AliasedSegmentsSplitTheKey()
    ensures ParsePathId("5") == ParsePathId("05") == Some(5)
    ensures RawCacheKey("5") != RawCacheKey("05")
  {
  }

  /**
   * Read note 5 as `05`, update it as `5`, read it as `05` again: the second
   * read returns the title from before the update, although the table holds
   * the new one and nothing expired in between.
   */
  lemma StaleReadAsWritten()
    ensures var s0 := State(map[5 := Note("draft", "", 0, 0)], 6, map[], 0);
      var s1 := GetOneAsWritten(s0, "05").after;
      var s2 := UpdateAsWritten(s1, "5", "final", "").after;
      && Invariant(s0)
      && s2.store[5].title == "final"
      && GetOneAsWritten(s2, "05").outcome == Answered(Ok(OneNote(Row(5, Note("draft", "", 0, 0)))))
  {
  }

  /**
   * The other way round: read note 5 as `5`, update it as `05`. The update
   * deletes `note:05`, so the live `note:5` keeps the old row and the
   * invariant no longer holds.
   */
  lemma AliasedUpdateBreaksInvariant()
    ensures var s0 := State(map[5 := Note("draft", "", 0, 0)], 6, map[], 0);
      var s1 := GetOneAsWritten(s0, "5").after;
      var s2 := UpdateAsWritten(s1, "05", "final", "").after;
      Invariant(s0) && !Consistent(s2)
  {
  }

  // ---------------------------------------------------------------------------
  // Corrected: the key is derived from the parsed id

  /** GET one note, keyed by the parsed id whatever the spelling of the segment. */
  function GetOneByPath(s: State, raw: string): (r: PathStep)
    ensures ParsePathId(raw).None? ==> r == PathStep(Failed, s)
    ensures ParsePathId(raw).Some? ==>
      var id := ParsePathId(raw).value;
      && (Live(s.cache, CacheKey(id), s.clock) ==> r == PathStep(Answered(Ok(s.cache[CacheKey(id)].value)), s))
      && (!Live(s.cache, CacheKey(id), s.clock) && id !in s.store ==>
            r == PathStep(Answered(NotFound(NotFoundMessage)), s))
      && (!Live(s.cache, CacheKey(id), s.clock) && id in s.store ==>
            && r.outcome == Answered(Ok(OneNote(Row(id, s.store[id]))))
            && r.after == s.(cache := r.after.cache)
            && CacheKey(id) in r.after.cache
            && r.after.cache[CacheKey(id)] == Entry(OneNote(Row(id, s.store[id])), s.clock + TtlSeconds)
            && SameExcept(s.cache, r.after.cache, {CacheKey(id)}))
  {
    match ParsePathId(raw)
    case None => PathStep(Failed, s)
    case Some(id) =>
      var step := GetOne(s, id);
      PathStep(Answered(step.response), step.after)
  }

  /** PUT a note, invalidating the key of the parsed id whatever the spelling of the segment. */
  function UpdateByPath(s: State, raw: string, title: string, content: string): (r: PathStep)
    ensures ParsePathId(raw).None? ==> r == PathStep(Failed, s)
    ensures ParsePathId(raw).Some? ==>
      var id := ParsePathId(raw).value;
      && (id !in s.store ==> r == PathStep(Answered(NotFound(NotFoundMessage)), s))
      && (id in s.store ==>
            && r.after.store == s.store[id := Note(title, content, s.store[id].createdAt, s.clock)]
            && r.outcome == Answered(Ok(OneNote(Row(id, r.after.store[id]))))
            && r.after.nextId == s.nextId && r.after.clock == s.clock
            && CacheKey(id) !in r.after.cache && AllNotesKey !in r.after.cache
            && SameExcept(s.cache, r.after.cache, {CacheKey(id), AllNotesKey}))
  {
    match ParsePathId(raw)
    case None => PathStep(Failed, s)
    case Some(id) =>
      var step := Update(s, id, title, content);
      PathStep(Answered(step.response), step.after)
  }

  /** DELETE a note, invalidating the key of the parsed id whatever the spelling of the segment. */
  function DeleteByPath(s: State, raw: string): (r: PathStep)
    ensures ParsePathId(raw).None? ==> r == PathStep(Failed, s)
    ensures ParsePathId(raw).Some? ==>
      var id := ParsePathId(raw).value;
      && (id !in s.store ==> r == PathStep(Answered(NotFound(DeleteNotFoundMessage)), s))
      && (id in s.store ==>
            && r.outcome == Answered(Ok(Message(DeletedMessage)))
            && r.after.store == s.store - {id}
            && r.after.nextId == s.nextId && r.after.clock == s.clock
            && CacheKey(id) !in r.after.cache && AllNotesKey !in r.after.cache
            && SameExcept(s.cache, r.after.cache, {CacheKey(id), AllNotesKey}))
  {
    match ParsePathId(raw)
    case None => PathStep(Failed, s)
    case Some(id) =>
      var step := Delete(s, id);
      PathStep(Answered(step.response), step.after)
  }

  /**
   * For a canonically spelled segment the code and the corrected handlers
   * coincide, so the `Coordinator` handlers, which take the id as a number,
   * are the code exactly on such segments.
   */
  lemma CanonicalSegmentsAgree(s: State, raw: string, title: string, content: string)
    requires Canonical(raw)
    ensures GetOneAsWritten(s, raw) == GetOneByPath(s, raw)
    ensures UpdateAsWritten(s, raw, title, content) == UpdateByPath(s, raw, title, content)
    ensures DeleteAsWritten(s, raw) == DeleteByPath(s, raw)
  {
  }

  /** Two spellings of one id are served identically by the corrected handlers. */
  lemma SpellingDoesNotMatter(s: State, a: string, b: string, title: string, content: string)
    requires ParsePathId(a) == ParsePathId(b)
    ensures GetOneByPath(s, a) == GetOneByPath(s, b)
    ensures UpdateByPath(s, a, title, content) == UpdateByPath(s, b, title, content)
    ensures DeleteByPath(s, a) == DeleteByPath(s, b)
  {
  }

  /** The corrected handlers keep the invariant, whatever the spelling. */
  lemma ByPathPreservesInvariant(s: State, raw: string, title: string, content: string)
    requires Invariant(s)
    ensures Invariant(GetOneByPath(s, raw).after)
    ensures Invariant(UpdateByPath(s, raw, title, content).after)
    ensures Invariant(DeleteByPath(s, raw).after)
  {
    if ParsePathId(raw).Some? {
      var id := ParsePathId(raw).value;
      GetOnePreservesInvariant(s, id);
      UpdatePreservesInvariant(s, id, title, content);
      DeletePreservesInvariant(s, id);
    }
  }

  /** Under the invariant, a read by any spelling answers what the table holds for the parsed id. */
  lemma ByPathReadsTable(s: State, raw: string)
    requires Invariant(s)
    ensures GetOneByPath(s, raw).outcome == match ParsePathId(raw)
      case None => Failed
      case Some(id) => Answered(if id in s.store then Ok(OneNote(Row(id, s.store[id]))) else NotFound(NotFoundMessage))
  {
    if ParsePathId(raw).Some? {
      GetOneReadsTable(s, ParsePathId(raw).value);
    }
  }

  /** The same three requests through the corrected handlers read the new title. */
  lemma FreshReadByPath()
    ensures var s0 := State(map[5 := Note("draft", "", 0, 0)], 6, map[], 0);
      var s1 := GetOneByPath(s0, "05").after;
      var s2 := UpdateByPath(s1, "5", "final", "").after;
      GetOneByPath(s2, "05").outcome == Answered(Ok(OneNote(Row(5, Note("final", "", 0, 0)))))
  {
  }
}
