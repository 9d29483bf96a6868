/** The JSON-file backend of the database service. Each operation reads
    the whole document, changes the `todos` array in memory and writes the
    document back, so each is one function from the document before to
    the document after. Ids and timestamps are parameters. */
module FileStore {
  import opened Results
  import opened JsValue
  import opened TodoErrors

  /** The parsed data file `{ "todos": [ ... ] }`; `todos` is `None` when
      the document has no such property. */
  datatype DbFile = DbFile(todos: Option<seq<Record>>)

  /** The document a fresh data directory is initialised with. */
  const EmptyFile := DbFile(Some([]))

  /** The properties of a record the file backend creates. */
  const TodoKeys: set<string> := {"id", "text", "completed", "createdAt", "updatedAt"}

  function IdOf(t: Record): JValue {
    Get(t, "id")
  }

  /** The lookup test `todo.id === id`. */
  predicate HasId(t: Record, id: JValue) {
    StrictEq(IdOf(t), id)
  }

  /** No two records share an id. */
  predicate IdsDistinct(todos: seq<Record>) {
    forall i, j | 0 <= i < j < |todos| :: !StrictEq(IdOf(todos[i]), IdOf(todos[j]))
  }

  /** No record has the id. */
  predicate Absent(todos: seq<Record>, id: JValue) {
    forall k | 0 <= k < |todos| :: !HasId(todos[k], id)
  }

  /** `i` is the position of the first record with the id. */
  predicate IsFirstMatch(todos: seq<Record>, id: JValue, i: int) {
    && 0 <= i < |todos|
    && HasId(todos[i], id)
    && forall k | 0 <= k < i :: !HasId(todos[k], id)
  }

  /** `data.todos || []`: the stored records in insertion order. */
  function GetTodos(db: DbFile): (r: seq<Record>)
    ensures db.todos.Some? ==> r == db.todos.value
    ensures db.todos.None? ==> r == []
  {
    match db.todos
    case Some(ts) => ts
    case None => []
  }

  /** `todos.findIndex(todo => todo.id === id)`. */
  function FindIndex(todos: seq<Record>, id: JValue): (i: int)
    ensures -1 <= i < |todos|
    ensures i == -1 <==> Absent(todos, id)
    ensures i != -1 ==> IsFirstMatch(todos, id, i)
  {
    if |todos| == 0 then -1
    else if HasId(todos[0], id) then 0
    else
      var j := FindIndex(todos[1..], id);
      if j == -1 then -1 else j + 1
  }

  /** The record `createTodo` builds: `completed` is `todo.completed ||
      false`, both timestamps are taken at creation. */
  function NewTodo(todo: Record, freshId: string, createdAt: string, updatedAt: string): (t: Record)
    ensures t.Keys == TodoKeys
    ensures t["id"] == JStr(freshId) && t["text"] == Get(todo, "text")
    ensures Truthy(t["completed"]) == Truthy(Get(todo, "completed"))
    ensures Truthy(Get(todo, "completed")) ==> t["completed"] == Get(todo, "completed")
    ensures !Truthy(Get(todo, "completed")) ==> t["completed"] == JBool(false)
    ensures t["createdAt"] == JStr(createdAt) && t["updatedAt"] == JStr(updatedAt)
  {
    map[
      "id" := JStr(freshId),
      "text" := Get(todo, "text"),
      "completed" := Or(Get(todo, "completed"), JBool(false)),
      "createdAt" := JStr(createdAt),
      "updatedAt" := JStr(updatedAt)
    ]
  }

  /** `createTodo`: appends the new record. Without a `todos` array the
      `push` throws. */
  function CreateTodo(db: DbFile, todo: Record, freshId: string, createdAt: string, updatedAt: string)
    : (r: Result<(DbFile, Record), Error>)
    ensures db.todos.None? <==> r == Err(TodosNotArray)
    ensures r.Err? ==> r.error == TodosNotArray
    ensures r.Ok? ==>
      && db.todos.Some?
      && r.value.1 == NewTodo(todo, freshId, createdAt, updatedAt)
      && r.value.0.todos.Some?
      && |r.value.0.todos.value| == |db.todos.value| + 1
      && r.value.0.todos.value[..|db.todos.value|] == db.todos.value
      && r.value.0.todos.value[|db.todos.value|] == r.value.1
  {
    match db.todos
    case None => Err(TodosNotArray)
    case Some(ts) =>
      var t := NewTodo(todo, freshId, createdAt, updatedAt);
      Ok((DbFile(Some(ts + [t])), t))
  }

  /** The shallow merge `{ ...current, ...updates, updatedAt: now }`. */
  function Merge(current: Record, updates: Record, now: string): (m: Record)
    ensures m.Keys == current.Keys + updates.Keys + {"updatedAt"}
    ensures m["updatedAt"] == JStr(now)
    ensures forall k | k in updates && k != "updatedAt" :: m[k] == updates[k]
    ensures forall k | k in current && k !in updates && k != "updatedAt" :: m[k] == current[k]
  {
    current + updates + map["updatedAt" := JStr(now)]
  }

  /** `updateTodo`: merges `updates` into the first record with the id. */
  function UpdateTodo(db: DbFile, id: JValue, updates: Record, now: string)
    : (r: Result<(DbFile, Record), Error>)
    ensures db.todos.None? ==> r == Err(TodosNotArray)
    ensures db.todos.Some? ==> (r.Err? <==> Absent(db.todos.value, id))
    ensures db.todos.Some? && r.Err? ==> r.error == NotFound
    ensures r.Ok? ==>
      var before := db.todos.value;
      var i := FindIndex(before, id);
      && IsFirstMatch(before, id, i)
      && r.value.1 == Merge(before[i], updates, now)
      && r.value.0.todos.Some?
      && |r.value.0.todos.value| == |before|
      && r.value.0.todos.value[i] == r.value.1
      && forall k | 0 <= k < |before| && k != i :: r.value.0.todos.value[k] == before[k]
  {
    match db.todos
    case None => Err(TodosNotArray)
    case Some(ts) =>
      var i := FindIndex(ts, id);
      if i == -1 then Err(NotFound)
      else
        var merged := Merge(ts[i], updates, now);
        Ok((DbFile(Some(ts[i := merged])), merged))
  }

  /** `deleteTodo`: splices out the first record with the id and returns
      it. */
  function DeleteTodo(db: DbFile, id: JValue): (r: Result<(DbFile, Record), Error>)
    ensures db.todos.None? ==> r == Err(TodosNotArray)
    ensures db.todos.Some? ==> (r.Err? <==> Absent(db.todos.value, id))
    ensures db.todos.Some? && r.Err? ==> r.error == NotFound
    ensures r.Ok? ==>
      var before := db.todos.value;
      var i := FindIndex(before, id);
      && IsFirstMatch(before, id, i)
      && r.value.1 == before[i]
      && r.value.0.todos.Some?
      && var after := r.value.0.todos.value;
      && |after| == |before| - 1
      && (forall k | 0 <= k < i :: after[k] == before[k])
      && (forall k | i <= k < |after| :: after[k] == before[k + 1])
      && multiset(after) + multiset{r.value.1} == multiset(before)
  {
    match db.todos
    case None => Err(TodosNotArray)
    case Some(ts) =>
      var i := FindIndex(ts, id);
      if i == -1 then Err(NotFound)
      else
        assert ts == ts[..i] + [ts[i]] + ts[i + 1..];
        Ok((DbFile(Some(ts[..i] + ts[i + 1..])), ts[i]))
  }

  /** A freshly initialised data file lists no todos, so every id is
      unknown to it. */
  lemma EmptyFileHasNoTodos(id: JValue)
    ensures GetTodos(EmptyFile) == []
    ensures IdsDistinct(GetTodos(EmptyFile))
    ensures FindIndex(GetTodos(EmptyFile), id) == -1
  {
  }

  /** Listing after a create shows the earlier list with the new record
      at the end. */
  lemma GetTodosAfterCreate(db: DbFile, todo: Record, freshId: string, createdAt: string, updatedAt: string)
    requires db.todos.Some?
    ensures
      var r := CreateTodo(db, todo, freshId, createdAt, updatedAt);
      r.Ok? && GetTodos(r.value.0) == GetTodos(db) + [NewTodo(todo, freshId, createdAt, updatedAt)]
  {
    var r := CreateTodo(db, todo, freshId, createdAt, updatedAt);
    var after := r.value.0.todos.value;
    assert after == after[..|db.todos.value|] + [after[|db.todos.value|]];
  }

  /** With a fresh id, the created record is the one a lookup finds. */
  lemma CreatedTodoIsFound(db: DbFile, todo: Record, freshId: string, createdAt: string, updatedAt: string)
    requires db.todos.Some? && Absent(db.todos.value, JStr(freshId))
    ensures
      var r := CreateTodo(db, todo, freshId, createdAt, updatedAt);
      r.Ok? && FindIndex(r.value.0.todos.value, JStr(freshId)) == |db.todos.value|
  {
    var r := CreateTodo(db, todo, freshId, createdAt, updatedAt);
    var after := r.value.0.todos.value;
    var n := |db.todos.value|;
    assert HasId(after[n], JStr(freshId));
    assert forall k | 0 <= k < n :: after[k] == db.todos.value[k];
  }

  /** Creating with a fresh id keeps ids distinct. */
  lemma CreateKeepsIdsDistinct(db: DbFile, todo: Record, freshId: string, createdAt: string, updatedAt: string)
    requires db.todos.Some? && IdsDistinct(db.todos.value) && Absent(db.todos.value, JStr(freshId))
    ensures
      var r := CreateTodo(db, todo, freshId, createdAt, updatedAt);
      r.Ok? && IdsDistinct(r.value.0.todos.value)
  {
    var r := CreateTodo(db, todo, freshId, createdAt, updatedAt);
    var before := db.todos.value;
    var after := r.value.0.todos.value;
    forall i, j | 0 <= i < j < |after| ensures !StrictEq(IdOf(after[i]), IdOf(after[j])) {
      assert after[i] == before[i];
      if j < |before| {
        assert after[j] == before[j];
      } else {
        assert !HasId(before[i], JStr(freshId));
      }
    }
  }

  /** An update that does not carry an `id` keeps ids distinct and keeps
      the updated record where a lookup finds it. */
  lemma UpdateKeepsIds(db: DbFile, id: JValue, updates: Record, now: string)
    requires db.todos.Some? && IdsDistinct(db.todos.value) && "id" !in updates
    ensures
      var r := UpdateTodo(db, id, updates, now);
      r.Ok? ==>
        && IdsDistinct(r.value.0.todos.value)
        && FindIndex(r.value.0.todos.value, id) == FindIndex(db.todos.value, id)
  {
    var r := UpdateTodo(db, id, updates, now);
    if r.Ok? {
      var before := db.todos.value;
      var after := r.value.0.todos.value;
      var i := FindIndex(before, id);
      assert IdOf(after[i]) == IdOf(before[i]);
      assert forall k | 0 <= k < |after| :: IdOf(after[k]) == IdOf(before[k]);
      assert IsFirstMatch(after, id, i);
    }
  }

  /** With distinct ids, a deleted id is gone and the rest stay distinct. */
  lemma DeleteRemovesId(db: DbFile, id: JValue)
    requires db.todos.Some? && IdsDistinct(db.todos.value)
    ensures
      var r := DeleteTodo(db, id);
      r.Ok? ==> IdsDistinct(r.value.0.todos.value) && Absent(r.value.0.todos.value, id)
  {
    var r := DeleteTodo(db, id);
    if r.Ok? {
      var before := db.todos.value;
      var after := r.value.0.todos.value;
      var i := FindIndex(before, id);
      forall k | 0 <= k < |after| ensures !HasId(after[k], id) {
        if k < i {
          assert after[k] == before[k];
        } else {
          assert after[k] == before[k + 1];
          assert !StrictEq(IdOf(before[i]), IdOf(before[k + 1]));
        }
      }
      forall a, b | 0 <= a < b < |after| ensures !StrictEq(IdOf(after[a]), IdOf(after[b])) {
        var a' := if a < i then a else a + 1;
        var b' := if b < i then b else b + 1;
        assert after[a] == before[a'] && after[b] == before[b'];
      }
    }
  }
}
