/**
 * The durable note table, with the SQL statements the handlers issue
 * written as operations on a map from id to row.
 */
module Notes {
  import opened Wrappers

  datatype Note = Note(title: string, content: string, createdAt: nat, updatedAt: nat)

  /** A row as `SELECT *` / `RETURNING *` hand it back: the id with the note's columns. */
  datatype Row = Row(id: nat, note: Note)

  type Store = map<nat, Note>

  /** A JSON response body; the cache holds the same bodies, serialised. */
  datatype Body = OneNote(row: Row) | NoteList(rows: seq<Row>) | Message(text: string)

  /** Every row listed is the store's current row for its id. */
  predicate Matches(store: Store, rows: seq<Row>) {
    forall i :: 0 <= i < |rows| ==> rows[i].id in store && store[rows[i].id] == rows[i].note
  }

  /** Every row of the store is listed. */
  predicate Covers(store: Store, rows: seq<Row>) {
    forall id :: id in store ==> Row(id, store[id]) in rows
  }

  /** `ORDER BY created_at DESC`: later creations come first; ties in any order. */
  predicate NewestFirst(rows: seq<Row>) {
    forall i, j :: 0 <= i < j < |rows| ==> rows[i].note.createdAt >= rows[j].note.createdAt
  }

  /**
   * `rows` is an admissible answer to `SELECT * FROM notes ORDER BY created_at DESC`:
   * each row exactly once, newest first.
   */
  predicate IsListing(store: Store, rows: seq<Row>) {
    |rows| == |store| && Matches(store, rows) && Covers(store, rows) && NewestFirst(rows)
  }

  /** The ids the id sequence has handed out so far: every stored id is below `nextId`. */
  predicate IdsBelow(store: Store, nextId: nat) {
    forall id :: id in store ==> id < nextId
  }

  function KeysBelow(store: Store, n: nat): set<nat> {
    set id | id in store && id < n
  }

  /** A scan of the table in id order, restricted to ids below `n`. */
  function ScanBelow(store: Store, n: nat): (rows: seq<Row>)
    ensures |rows| == |KeysBelow(store, n)|
    ensures Matches(store, rows)
    ensures forall id :: id in store && id < n ==> Row(id, store[id]) in rows
  {
    if n == 0 then
      assert KeysBelow(store, n) == {};
      []
    else
      var rest := ScanBelow(store, n - 1);
      if n - 1 in store then
        assert KeysBelow(store, n) == KeysBelow(store, n - 1) + {n - 1};
        rest + [Row(n - 1, store[n - 1])]
      else
        assert KeysBelow(store, n) == KeysBelow(store, n - 1);
        rest
  }

  /** Puts `r` before the first row that is not newer than it (stable). */
  function InsertNewest(r: Row, rows: seq<Row>): (out: seq<Row>)
    requires NewestFirst(rows)
    ensures NewestFirst(out)
    ensures multiset(out) == multiset(rows) + multiset{r}
    ensures out[0] == r || (|rows| > 0 && out[0] == rows[0])
  {
    if |rows| == 0 || r.note.createdAt >= rows[0].note.createdAt then
      [r] + rows
    else
      var tail := InsertNewest(r, rows[1..]);
      assert rows == [rows[0]] + rows[1..];
      assert rows[0].note.createdAt >= tail[0].note.createdAt;
      [rows[0]] + tail
  }

  function SortNewestFirst(rows: seq<Row>): (out: seq<Row>)
    ensures NewestFirst(out)
    ensures multiset(out) == multiset(rows)
  {
    if |rows| == 0 then []
    else
      assert rows == [rows[0]] + rows[1..];
      InsertNewest(rows[0], SortNewestFirst(rows[1..]))
  }

  /**
   * `SELECT * FROM notes ORDER BY created_at DESC` (backend/server.js:50).
   * The query itself has no bound; scanning the ids below `nextId` is how the
   * model enumerates the map, and it sees every row exactly when `IdsBelow`
   * holds, which every reachable state satisfies.
   */
  function SelectAll(store: Store, nextId: nat): seq<Row> {
    SortNewestFirst(ScanBelow(store, nextId))
  }

  /** When every id was handed out below `nextId`, the query lists exactly the table, newest first. */
  lemma SelectAllIsListing(store: Store, nextId: nat)
    ensures IdsBelow(store, nextId) ==> IsListing(store, SelectAll(store, nextId))
  {
    if !IdsBelow(store, nextId) {
      return;
    }
    var scan := ScanBelow(store, nextId);
    var rows := SelectAll(store, nextId);
    assert KeysBelow(store, nextId) == store.Keys;
    assert multiset(rows) == multiset(scan);
    assert |rows| == |multiset(rows)| == |multiset(scan)| == |scan|;
    forall i | 0 <= i < |rows|
      ensures rows[i].id in store && store[rows[i].id] == rows[i].note
    {
      assert rows[i] in multiset(scan);
    }
    forall id | id in store
      ensures Row(id, store[id]) in rows
    {
      assert Row(id, store[id]) in multiset(scan);
    }
  }

  /** `SELECT * FROM notes WHERE id = $1` (backend/server.js:69). */
  function SelectById(store: Store, id: nat): (r: Option<Row>)
    ensures r.Some? <==> id in store
    ensures r.Some? ==> r.value == Row(id, store[id])
  {
    if id in store then Some(Row(id, store[id])) else None
  }

  /**
   * `INSERT INTO notes (title, content) VALUES ($1, $2) RETURNING *`
   * (backend/server.js:86): the id comes from the table's sequence and both
   * timestamps from the column defaults, i.e. the current time.
   */
  function Insert(store: Store, nextId: nat, title: string, content: string, now: nat): (r: (Store, Row))
    ensures r.1 == Row(nextId, Note(title, content, now, now))
    ensures r.0.Keys == store.Keys + {nextId}
    ensures r.0[nextId] == r.1.note
    ensures forall id :: id in store && id != nextId ==> r.0[id] == store[id]
    ensures IdsBelow(store, nextId) ==> nextId !in store && |r.0| == |store| + 1 && IdsBelow(r.0, nextId + 1)
  {
    var row := Row(nextId, Note(title, content, now, now));
    (store[nextId := row.note], row)
  }

  /** `UPDATE notes SET updated_at = CURRENT_TIMESTAMP WHERE id = $1` (backend/server.js:37, 100). */
  function TouchUpdatedAt(store: Store, id: nat, now: nat): (r: Store)
    ensures r.Keys == store.Keys
    ensures id in store ==> r[id] == store[id].(updatedAt := now)
    ensures forall other :: other in store && other != id ==> r[other] == store[other]
  {
    if id in store then store[id := store[id].(updatedAt := now)] else store
  }

  /**
   * `UPDATE notes SET title = $1, content = $2 WHERE id = $3 RETURNING *`
   * (backend/server.js:101): no row is returned when the id is absent.
   */
  function UpdateFields(store: Store, id: nat, title: string, content: string): (r: (Store, Option<Row>))
    ensures r.0.Keys == store.Keys
    ensures r.1.Some? <==> id in store
    ensures id in store ==> r.0[id] == store[id].(title := title, content := content)
    ensures id in store ==> r.1.value == Row(id, r.0[id])
    ensures forall other :: other in store && other != id ==> r.0[other] == store[other]
  {
    if id in store then
      var note := store[id].(title := title, content := content);
      (store[id := note], Some(Row(id, note)))
    else
      (store, None)
  }

  /** `DELETE FROM notes WHERE id = $1 RETURNING *` (backend/server.js:118). */
  function DeleteById(store: Store, id: nat): (r: (Store, Option<Row>))
    ensures r.0.Keys == store.Keys - {id}
    ensures r.1.Some? <==> id in store
    ensures id in store ==> r.1.value == Row(id, store[id])
    ensures forall other :: other in r.0 ==> r.0[other] == store[other]
  {
    if id in store then (store - {id}, Some(Row(id, store[id]))) else (store, None)
  }
}
