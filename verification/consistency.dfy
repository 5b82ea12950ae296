/**
 * The consistency invariant of the coordinator and its preservation by
 * every handler: each live entry under a key a handler reads holds what the
 * table would answer for that key now, so no read returns data older than
 * the last write.
 */
module Consistency {
  import opened Wrappers
  import opened CacheKeys
  import opened Notes
  import opened Cache
  import opened Coordinator

  /** Ids come from the sequence, and no timestamp lies in the future. */
  ghost predicate WellFormed(s: State) {
    && IdsBelow(s.store, s.nextId)
    && forall id :: id in s.store ==> s.store[id].createdAt <= s.store[id].updatedAt <= s.clock
  }

  /**
   * `value` is what the table would answer now for the query behind `key`.
   * Keys no handler reads are unconstrained.
   */
  ghost predicate Fresh(store: Store, key: string, value: Body) {
    if key == AllNotesKey then value.NoteList? && IsListing(store, value.rows)
    else match ParseKey(key)
      case Some(id) => id in store && value == OneNote(Row(id, store[id]))
      case None => true
  }

  ghost predicate Consistent(s: State) {
    forall key :: Live(s.cache, key, s.clock) ==> Fresh(s.store, key, s.cache[key].value)
  }

  ghost predicate Invariant(s: State) {
    WellFormed(s) && Consistent(s)
  }

  lemma InitInvariant(clock: nat)
    ensures Invariant(Init(clock))
  {
  }

  lemma TickPreservesInvariant(s: State, seconds: nat)
    requires Invariant(s)
    ensures Invariant(Tick(s, seconds))
  {
  }

  lemma GetAllPreservesInvariant(s: State)
    requires Invariant(s)
    ensures Invariant(GetAll(s).after)
  {
  }

  lemma GetOnePreservesInvariant(s: State, id: nat)
    requires Invariant(s)
    ensures Invariant(GetOne(s, id).after)
  {
    var s' := GetOne(s, id).after;
    forall key | Live(s'.cache, key, s'.clock)
      ensures Fresh(s'.store, key, s'.cache[key].value)
    {
      if key == CacheKey(id) {
        ParseCacheKey(id);
      }
    }
  }

  /** A live note key names a stored note, so it is not the id the sequence hands out next. */
  lemma CreatePreservesInvariant(s: State, title: string, content: string)
    requires Invariant(s)
    ensures Invariant(Create(s, title, content).after)
  {
  }

  /** The deleted keys are exactly the ones whose answer the write changed. */
  lemma UpdatePreservesInvariant(s: State, id: nat, title: string, content: string)
    requires Invariant(s)
    ensures Invariant(Update(s, id, title, content).after)
  {
    if id in s.store {
      var s' := Update(s, id, title, content).after;
      forall key | Live(s'.cache, key, s'.clock)
        ensures Fresh(s'.store, key, s'.cache[key].value)
      {
        assert Live(s.cache, key, s.clock);
        if ParseKey(key).Some? {
          ParsedKeyIsCacheKey(key, ParseKey(key).value);
        }
      }
    }
  }

  lemma DeletePreservesInvariant(s: State, id: nat)
    requires Invariant(s)
    ensures Invariant(Delete(s, id).after)
  {
    if id in s.store {
      var s' := Delete(s, id).after;
      forall key | Live(s'.cache, key, s'.clock)
        ensures Fresh(s'.store, key, s'.cache[key].value)
      {
        assert Live(s.cache, key, s.clock);
        if ParseKey(key).Some? {
          ParsedKeyIsCacheKey(key, ParseKey(key).value);
        }
      }
    }
  }

  lemma HandlePreservesInvariant(s: State, req: Request)
    requires Invariant(s)
    ensures Invariant(Handle(s, req).after)
  {
    match req
    case ListNotes => GetAllPreservesInvariant(s);
    case ReadNote(id) => GetOnePreservesInvariant(s, id);
    case CreateNote(title, content) => CreatePreservesInvariant(s, title, content);
    case UpdateNote(id, title, content) => UpdatePreservesInvariant(s, id, title, content);
    case DeleteNote(id) => DeletePreservesInvariant(s, id);
  }

  lemma ApplyPreservesInvariant(s: State, e: Event)
    requires Invariant(s)
    ensures Invariant(Apply(s, e))
  {
    match e
    case Serve(req) => HandlePreservesInvariant(s, req);
    case Wait(seconds) => TickPreservesInvariant(s, seconds);
  }

  /** Any sequence of requests and waits keeps the invariant. */
  lemma {:induction false} RunPreservesInvariant(s: State, events: seq<Event>)
    requires Invariant(s)
    ensures Invariant(Run(s, events))
    decreases |events|
  {
    if |events| > 0 {
      ApplyPreservesInvariant(s, events[0]);
      RunPreservesInvariant(Apply(s, events[0]), events[1..]);
    }
  }

  // ---------------------------------------------------------------------------
  // What callers observe

  /** The rows a listing response carries; none for any other response. */
  function ListedRows(r: Response): seq<Row> {
    if r.Ok? && r.body.NoteList? then r.body.rows else []
  }

  /** Under the invariant, the listing handler answers exactly the table, newest first, hit or miss. */
  lemma GetAllReadsTable(s: State)
    requires Invariant(s)
    ensures GetAll(s).response.Ok? && GetAll(s).response.body.NoteList?
    ensures IsListing(s.store, GetAll(s).response.body.rows)
  {
  }

  /** Under the invariant, the single-note handler answers exactly the table, hit or miss. */
  lemma GetOneReadsTable(s: State, id: nat)
    requires Invariant(s)
    ensures GetOne(s, id).response ==
      if id in s.store then Ok(OneNote(Row(id, s.store[id]))) else NotFound(NotFoundMessage)
  {
    ParseCacheKey(id);
  }

  /** Starting from an empty table and cache, no history of requests and waits leads to a stale read. */
  lemma NoStaleReads(clock: nat, events: seq<Event>, id: nat)
    ensures var s := Run(Init(clock), events);
      && GetAll(s).response.Ok? && GetAll(s).response.body.NoteList?
      && IsListing(s.store, GetAll(s).response.body.rows)
      && GetOne(s, id).response ==
           if id in s.store then Ok(OneNote(Row(id, s.store[id]))) else NotFound(NotFoundMessage)
  {
    RunPreservesInvariant(Init(clock), events);
    var s := Run(Init(clock), events);
    GetAllReadsTable(s);
    GetOneReadsTable(s, id);
  }

  /** A note read right after its creation has the given fields and equal timestamps. */
  lemma CreateThenGetOne(s: State, title: string, content: string)
    requires Invariant(s)
    ensures GetOne(Create(s, title, content).after, s.nextId).response
      == Ok(OneNote(Row(s.nextId, Note(title, content, s.clock, s.clock))))
  {
    CreatePreservesInvariant(s, title, content);
    GetOneReadsTable(Create(s, title, content).after, s.nextId);
  }

  /**
   * A note read right after its update has the new fields, its creation time
   * and the current time as `updated_at`, which is no earlier than before.
   */
  lemma UpdateThenGetOne(s: State, id: nat, title: string, content: string)
    requires Invariant(s) && id in s.store
    ensures GetOne(Update(s, id, title, content).after, id).response
      == Ok(OneNote(Row(id, Note(title, content, s.store[id].createdAt, s.clock))))
    ensures s.store[id].updatedAt <= s.clock
  {
  }

  lemma DeleteThenGetOne(s: State, id: nat)
    requires Invariant(s)
    ensures GetOne(Delete(s, id).after, id).response == NotFound(NotFoundMessage)
  {
    DeletePreservesInvariant(s, id);
    GetOneReadsTable(Delete(s, id).after, id);
  }

  /** Right after a creation, the listing shows the new row. */
  lemma CreateShowsInListing(s: State, title: string, content: string)
    requires Invariant(s)
    ensures Row(s.nextId, Note(title, content, s.clock, s.clock))
      in ListedRows(GetAll(Create(s, title, content).after).response)
  {
  }

  /** Right after an update, the listing shows the new fields and no older version of the note. */
  lemma UpdateShowsInListing(s: State, id: nat, title: string, content: string)
    requires Invariant(s) && id in s.store
    ensures var rows := ListedRows(GetAll(Update(s, id, title, content).after).response);
      && Row(id, Note(title, content, s.store[id].createdAt, s.clock)) in rows
      && forall i :: 0 <= i < |rows| && rows[i].id == id ==>
           rows[i] == Row(id, Note(title, content, s.store[id].createdAt, s.clock))
  {
  }

  /** Right after a deletion, the listing has no row for the id. */
  lemma DeleteShowsInListing(s: State, id: nat)
    requires Invariant(s)
    ensures var rows := ListedRows(GetAll(Delete(s, id).after).response);
      forall i :: 0 <= i < |rows| ==> rows[i].id != id
  {
  }

  /** A note cached by a read at time T is read from the table again from T + 60 on. */
  lemma CachedNoteExpires(s: State, id: nat)
    requires !Live(s.cache, CacheKey(id), s.clock) && id in s.store
    ensures Live(GetOne(s, id).after.cache, CacheKey(id), s.clock)
    ensures !Live(Tick(GetOne(s, id).after, TtlSeconds).cache, CacheKey(id), s.clock + TtlSeconds)
  {
  }
}
