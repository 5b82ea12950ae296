/**
 * The cache-aside coordinator: the bodies of the five note handlers of
 * backend/server.js, run one at a time against the table and the cache.
 *
 * Every handler reads the cache first, falls back to the table on a miss and
 * fills the cache; every write changes the table first and then deletes the
 * keys whose contents it made stale. The invariant that matters is
 * `Consistent`: each live entry under a key a handler reads holds what the
 * table would answer for that key now.
 */
module Coordinator {
  import opened Wrappers
  import opened CacheKeys
  import opened Notes
  import opened Cache

  /** The table, the id sequence, the cache and the clock (in seconds). */
  datatype State = State(store: Store, nextId: nat, cache: Cache, clock: nat)

  /** HTTP outcomes: 200 with a body, 201 with the created row, 404 with its message. */
  datatype Response = Ok(body: Body) | Created(body: Body) | NotFound(error: string)

  datatype Step = Step(response: Response, after: State)

  const NotFoundMessage: string := "Note not found"
  const DeleteNotFoundMessage: string := "Note not found."
  const DeletedMessage: string := "Note deleted"

  /** An empty table and an empty cache. */
  function Init(clock: nat): State {
    State(map[], 0, map[], clock)
  }

  /** Time passes; entries whose deadline is reached stop being read. */
  function Tick(s: State, seconds: nat): (s': State)
    ensures s'.store == s.store && s'.cache == s.cache && s'.nextId == s.nextId
    ensures s'.clock == s.clock + seconds
  {
    s.(clock := s.clock + seconds)
  }

  /** GET all notes (backend/server.js:43-58). */
  function GetAll(s: State): (r: Step)
    ensures Live(s.cache, AllNotesKey, s.clock) ==> r == Step(Ok(s.cache[AllNotesKey].value), s)
    ensures !Live(s.cache, AllNotesKey, s.clock) ==>
      && r.response.Ok? && r.response.body.NoteList?
      && (IdsBelow(s.store, s.nextId) ==> IsListing(s.store, r.response.body.rows))
      && r.after == s.(cache := r.after.cache)
      && AllNotesKey in r.after.cache && r.after.cache[AllNotesKey] == Entry(r.response.body, s.clock + TtlSeconds)
      && SameExcept(s.cache, r.after.cache, {AllNotesKey})
  {
    match Get(s.cache, AllNotesKey, s.clock)
    case Some(notes) => Step(Ok(notes), s)
    case None =>
      SelectAllIsListing(s.store, s.nextId);
      var notes := NoteList(SelectAll(s.store, s.nextId));
      Step(Ok(notes), s.(cache := Set(s.cache, AllNotesKey, notes, s.clock)))
  }

  /** GET one note (backend/server.js:61-80). */
  function GetOne(s: State, id: nat): (r: Step)
    ensures Live(s.cache, CacheKey(id), s.clock) ==> r == Step(Ok(s.cache[CacheKey(id)].value), s)
    ensures !Live(s.cache, CacheKey(id), s.clock) && id !in s.store ==> r == Step(NotFound(NotFoundMessage), s)
    ensures !Live(s.cache, CacheKey(id), s.clock) && id in s.store ==>
      && r.response == Ok(OneNote(Row(id, s.store[id])))
      && r.after == s.(cache := r.after.cache)
      && CacheKey(id) in r.after.cache && r.after.cache[CacheKey(id)] == Entry(OneNote(Row(id, s.store[id])), s.clock + TtlSeconds)
      && SameExcept(s.cache, r.after.cache, {CacheKey(id)})
  {
    var key := CacheKey(id);
    match Get(s.cache, key, s.clock)
    case Some(note) => Step(Ok(note), s)
    case None =>
      match SelectById(s.store, id)
      case None => Step(NotFound(NotFoundMessage), s)
      case Some(row) =>
        var note := OneNote(row);
        Step(Ok(note), s.(cache := Set(s.cache, key, note, s.clock)))
  }

  /** POST a new note (backend/server.js:83-93): title and content are stored as given. */
  function Create(s: State, title: string, content: string): (r: Step)
    ensures r.response == Created(OneNote(Row(s.nextId, Note(title, content, s.clock, s.clock))))
    ensures r.after.store.Keys == s.store.Keys + {s.nextId}
    ensures r.after.store[s.nextId] == Note(title, content, s.clock, s.clock)
    ensures forall id :: id in s.store && id != s.nextId ==> r.after.store[id] == s.store[id]
    ensures IdsBelow(s.store, s.nextId) ==> s.nextId !in s.store && |r.after.store| == |s.store| + 1
    ensures r.after.nextId == s.nextId + 1 && r.after.clock == s.clock
    ensures AllNotesKey !in r.after.cache
    ensures SameExcept(s.cache, r.after.cache, {AllNotesKey})
  {
    var (store, row) := Insert(s.store, s.nextId, title, content, s.clock);
    var cache := Del(s.cache, AllNotesKey);
    Step(Created(OneNote(row)), State(store, s.nextId + 1, cache, s.clock))
  }

  /**
   * PUT a note (backend/server.js:96-112): first the timestamp statement,
   * then the field statement; the keys are deleted only when a row changed.
   */
  function Update(s: State, id: nat, title: string, content: string): (r: Step)
    ensures id !in s.store ==> r == Step(NotFound(NotFoundMessage), s)
    ensures id in s.store ==>
      && r.after.store == s.store[id := Note(title, content, s.store[id].createdAt, s.clock)]
      && r.response == Ok(OneNote(Row(id, r.after.store[id])))
      && r.after.nextId == s.nextId && r.after.clock == s.clock
      && CacheKey(id) !in r.after.cache && AllNotesKey !in r.after.cache
      && SameExcept(s.cache, r.after.cache, {CacheKey(id), AllNotesKey})
  {
    var touched := TouchUpdatedAt(s.store, id, s.clock);
    var (store, result) := UpdateFields(touched, id, title, content);
    match result
    case None => Step(NotFound(NotFoundMessage), s.(store := store))
    case Some(row) =>
      var cache := Del(Del(s.cache, CacheKey(id)), AllNotesKey);
      Step(Ok(OneNote(row)), s.(store := store, cache := cache))
  }

  /** DELETE a note (backend/server.js:115-129). */
  function Delete(s: State, id: nat): (r: Step)
    ensures id !in s.store ==> r == Step(NotFound(DeleteNotFoundMessage), s)
    ensures id in s.store ==>
      && r.response == Ok(Message(DeletedMessage))
      && r.after.store == s.store - {id}
      && r.after.nextId == s.nextId && r.after.clock == s.clock
      && CacheKey(id) !in r.after.cache && AllNotesKey !in r.after.cache
      && SameExcept(s.cache, r.after.cache, {CacheKey(id), AllNotesKey})
  {
    var (store, result) := DeleteById(s.store, id);
    match result
    case None => Step(NotFound(DeleteNotFoundMessage), s.(store := store))
    case Some(_) =>
      var cache := Del(Del(s.cache, CacheKey(id)), AllNotesKey);
      Step(Ok(Message(DeletedMessage)), s.(store := store, cache := cache))
  }

  /** The five routes. */
  datatype Request =
    | ListNotes
    | ReadNote(id: nat)
    | CreateNote(title: string, content: string)
    | UpdateNote(id: nat, title: string, content: string)
    | DeleteNote(id: nat)

  function Handle(s: State, req: Request): Step {
    match req
    case ListNotes => GetAll(s)
    case ReadNote(id) => GetOne(s, id)
    case CreateNote(title, content) => Create(s, title, content)
    case UpdateNote(id, title, content) => Update(s, id, title, content)
    case DeleteNote(id) => Delete(s, id)
  }

  /** What happens between two observations: a request is served, or time passes. */
  datatype Event = Serve(req: Request) | Wait(seconds: nat)

  function Apply(s: State, e: Event): State {
    match e
    case Serve(req) => Handle(s, req).after
    case Wait(seconds) => Tick(s, seconds)
  }

  /** The state after `events`, one after another. */
  function Run(s: State, events: seq<Event>): State
    decreases |events|
  {
    if |events| == 0 then s else Run(Apply(s, events[0]), events[1..])
  }
}
