/** The todo service: validation and normalisation of inputs, in order,
    first failure wins, before the file store is called. Inputs are the
    parsed request bodies and route ids as JavaScript values. */
module TodoService {
  import opened Results
  import opened JsValue
  import opened TodoErrors
  import FileStore

  /** Longest accepted text, in UTF-16 code units, before trimming. */
  const MaxTextLength := 200

  /** Text the service lets through to the store: a non-empty trimmed
      string of at most 200 code units. */
  predicate CleanText(v: JValue) {
    v.JStr? && v.s != "" && Trim(v.s) == v.s && Utf16Length(v.s) <= MaxTextLength
  }

  /** The two string checks create and update share: not blank, then not
      longer than 200 code units as given; the result is the trimmed
      string. */
  function CheckText(s: string): (r: Result<string, Error>)
    ensures r == Err(TextEmpty) <==> Blank(s)
    ensures r == Err(TextTooLong) <==> !Blank(s) && Utf16Length(s) > MaxTextLength
    ensures r.Ok? <==> !Blank(s) && Utf16Length(s) <= MaxTextLength
    ensures r.Ok? ==> r.value == Trim(s) && TrimmedFrom(r.value, s) && CleanText(JStr(r.value))
  {
    TrimEmptyIff(s);
    if Trim(s) == "" then Err(TextEmpty)
    else if Utf16Length(s) > MaxTextLength then Err(TextTooLong)
    else
      TrimIsTrimmedFrom(s);
      TrimIdempotent(s);
      TrimUtf16Length(s);
      Ok(Trim(s))
  }

  /** The checks of `createTodo`; on success the object handed to the
      store, `{ text: text.trim(), completed: Boolean(completed) }`. */
  function ValidateCreate(input: Record): (r: Result<Record, Error>)
    ensures r == Err(TextRequired) <==> !(Get(input, "text").JStr? && Get(input, "text").s != "")
    ensures r == Err(TextEmpty) <==> Get(input, "text").JStr? && Get(input, "text").s != "" && Blank(Get(input, "text").s)
    ensures r == Err(TextTooLong) <==>
      Get(input, "text").JStr? && !Blank(Get(input, "text").s) && Utf16Length(Get(input, "text").s) > MaxTextLength
    ensures r.Ok? <==>
      Get(input, "text").JStr? && !Blank(Get(input, "text").s) && Utf16Length(Get(input, "text").s) <= MaxTextLength
    ensures r.Ok? ==> r.value.Keys == {"text", "completed"}
    ensures r.Ok? ==> r.value["text"] == JStr(Trim(Get(input, "text").s)) && CleanText(r.value["text"])
    ensures r.Ok? ==> r.value["completed"] == JBool(Truthy(Get(input, "completed")))
  {
    var t := Get(input, "text");
    if !Truthy(t) || !t.JStr? then Err(TextRequired)
    else
      var c := CheckText(t.s);
      if c.Err? then Err(c.error)
      else Ok(map["text" := JStr(c.value), "completed" := JBool(Truthy(Get(input, "completed")))])
  }

  /** The checks and rewriting of `updateTodo`: a truthy id, a supplied
      `text` that passes the string checks and is replaced by its trimmed
      form, a supplied `completed` coerced with `Boolean`. */
  function NormalizeUpdate(id: JValue, updates: Record): (r: Result<Record, Error>)
    ensures r == Err(IdRequired) <==> !Truthy(id)
    ensures Truthy(id) ==> var t := Get(updates, "text");
      && (r == Err(TextNotString) <==> Supplied(updates, "text") && !t.JStr?)
      && (r == Err(TextEmpty) <==> t.JStr? && Blank(t.s))
      && (r == Err(TextTooLong) <==> t.JStr? && !Blank(t.s) && Utf16Length(t.s) > MaxTextLength)
    ensures r.Ok? <==>
      (Truthy(id)
       && (!Supplied(updates, "text")
           || (Get(updates, "text").JStr? && !Blank(Get(updates, "text").s)
               && Utf16Length(Get(updates, "text").s) <= MaxTextLength)))
    ensures r.Ok? ==>
      && r.value.Keys == updates.Keys
      && (forall k | k in updates && k != "text" && k != "completed" :: r.value[k] == updates[k])
      && (Supplied(updates, "text") ==>
            CleanText(r.value["text"]) && r.value["text"] == JStr(Trim(Get(updates, "text").s)))
      && (Supplied(updates, "completed") ==>
            r.value["completed"] == JBool(Truthy(updates["completed"])))
      && (!Supplied(updates, "text") ==> Get(r.value, "text") == JUndef)
      && (!Supplied(updates, "completed") ==> Get(r.value, "completed") == JUndef)
  {
    if !Truthy(id) then Err(IdRequired)
    else
      match NormalizeText(updates)
      case Err(e) => Err(e)
      case Ok(u) => Ok(CoerceCompleted(u))
  }

  /** `if (updates.completed !== undefined) updates.completed =
      Boolean(updates.completed)`. */
  function CoerceCompleted(u: Record): (r: Record)
    ensures r.Keys == u.Keys
    ensures forall k | k in u && k != "completed" :: r[k] == u[k]
    ensures Supplied(u, "completed") ==> r["completed"] == JBool(Truthy(u["completed"]))
    ensures !Supplied(u, "completed") ==> Get(r, "completed") == JUndef
  {
    if Get(u, "completed") == JUndef then u
    else u["completed" := JBool(Truthy(u["completed"]))]
  }

  /** The `text` part of `updateTodo`'s checks: a supplied text must be a
      string that passes the string checks, and is replaced by its trimmed
      form; everything else is kept. */
  function NormalizeText(updates: Record): (r: Result<Record, Error>)
    ensures r == Err(TextNotString) <==> Supplied(updates, "text") && !Get(updates, "text").JStr?
    ensures r == Err(TextEmpty) <==> Get(updates, "text").JStr? && Blank(Get(updates, "text").s)
    ensures r == Err(TextTooLong) <==>
      Get(updates, "text").JStr? && !Blank(Get(updates, "text").s) && Utf16Length(Get(updates, "text").s) > MaxTextLength
    ensures r.Ok? <==>
      (!Supplied(updates, "text")
       || (Get(updates, "text").JStr? && !Blank(Get(updates, "text").s)
           && Utf16Length(Get(updates, "text").s) <= MaxTextLength))
    ensures r.Ok? ==> r.value.Keys == updates.Keys
    ensures r.Ok? ==> forall k | k in updates && k != "text" :: r.value[k] == updates[k]
    ensures r.Ok? && Supplied(updates, "text") ==>
      CleanText(r.value["text"]) && r.value["text"] == JStr(Trim(Get(updates, "text").s))
    ensures r.Ok? && !Supplied(updates, "text") ==> Get(r.value, "text") == JUndef
  {
    var t := Get(updates, "text");
    if t == JUndef then Ok(updates)
    else if !t.JStr? then Err(TextNotString)
    else
      var c := CheckText(t.s);
      if c.Err? then Err(c.error)
      else Ok(updates["text" := JStr(c.value)])
  }

  /** `createTodo`: validate, then create in the store. */
  function CreateTodo(db: FileStore.DbFile, input: Record, freshId: string, createdAt: string, updatedAt: string)
    : (r: Result<(FileStore.DbFile, Record), Error>)
    ensures ValidateCreate(input).Err? ==> r == Err(ValidateCreate(input).error)
    ensures ValidateCreate(input).Ok? ==>
      r == FileStore.CreateTodo(db, ValidateCreate(input).value, freshId, createdAt, updatedAt)
  {
    match ValidateCreate(input)
    case Err(e) => Err(e)
    case Ok(todo) => FileStore.CreateTodo(db, todo, freshId, createdAt, updatedAt)
  }

  /** `updateTodo`: validate and normalise, then update in the store. */
  function UpdateTodo(db: FileStore.DbFile, id: JValue, updates: Record, now: string)
    : (r: Result<(FileStore.DbFile, Record), Error>)
    ensures NormalizeUpdate(id, updates).Err? ==> r == Err(NormalizeUpdate(id, updates).error)
    ensures NormalizeUpdate(id, updates).Ok? ==>
      r == FileStore.UpdateTodo(db, id, NormalizeUpdate(id, updates).value, now)
  {
    match NormalizeUpdate(id, updates)
    case Err(e) => Err(e)
    case Ok(u) => FileStore.UpdateTodo(db, id, u, now)
  }

  /** `deleteTodo`: a truthy id, then delete in the store. */
  function DeleteTodo(db: FileStore.DbFile, id: JValue): (r: Result<(FileStore.DbFile, Record), Error>)
    ensures !Truthy(id) ==> r == Err(IdRequired)
    ensures Truthy(id) ==> r == FileStore.DeleteTodo(db, id)
  {
    if !Truthy(id) then Err(IdRequired) else FileStore.DeleteTodo(db, id)
  }

  /** `todos.find(t => t.id === id)`: the first record with the id. */
  function Find(todos: seq<Record>, id: JValue): (r: Option<Record>)
    ensures r.None? <==> FileStore.Absent(todos, id)
    ensures r.Some? ==> r.value in todos && FileStore.HasId(r.value, id)
  {
    if |todos| == 0 then None
    else if FileStore.HasId(todos[0], id) then Some(todos[0])
    else Find(todos[1..], id)
  }

  /** `find` and `findIndex` agree: both pick the first record with the
      id, and both fail exactly when no record has it. */
  lemma {:induction false} FindAgreesWithFindIndex(todos: seq<Record>, id: JValue)
    ensures var i := FileStore.FindIndex(todos, id);
      && (Find(todos, id) == None <==> i == -1)
      && (i != -1 ==> Find(todos, id) == Some(todos[i]))
  {
    if |todos| > 0 && !FileStore.HasId(todos[0], id) {
      FindAgreesWithFindIndex(todos[1..], id);
    }
  }

  /** `getTodoById`: a truthy id, then the first listed record with it. */
  function GetTodoById(db: FileStore.DbFile, id: JValue): (r: Result<Record, Error>)
    ensures !Truthy(id) ==> r == Err(IdRequired)
    ensures Truthy(id) ==> var todos := FileStore.GetTodos(db);
      && (r == Err(NotFound) <==> FileStore.Absent(todos, id))
      && (r.Ok? ==> r.value == todos[FileStore.FindIndex(todos, id)])
    ensures r.Err? ==> r.error == IdRequired || r.error == NotFound
    ensures r == Err(IdRequired) <==> !Truthy(id)
    ensures r.Ok? <==> Truthy(id) && !FileStore.Absent(FileStore.GetTodos(db), id)
  {
    if !Truthy(id) then Err(IdRequired)
    else
      FindAgreesWithFindIndex(FileStore.GetTodos(db), id);
      match Find(FileStore.GetTodos(db), id)
      case None => Err(NotFound)
      case Some(t) => Ok(t)
  }

  /** A created todo can be read back by its id, with the trimmed text and
      `completed` as `Boolean(input.completed)`. */
  lemma CreateThenGet(db: FileStore.DbFile, input: Record, freshId: string, createdAt: string, updatedAt: string)
    requires db.todos.Some? && FileStore.Absent(db.todos.value, JStr(freshId)) && freshId != ""
    requires ValidateCreate(input).Ok?
    ensures
      var r := CreateTodo(db, input, freshId, createdAt, updatedAt);
      && r.Ok?
      && GetTodoById(r.value.0, JStr(freshId)) == Ok(r.value.1)
      && r.value.1["text"] == JStr(Trim(Get(input, "text").s))
      && r.value.1["completed"] == JBool(Truthy(Get(input, "completed")))
  {
    FileStore.CreatedTodoIsFound(db, ValidateCreate(input).value, freshId, createdAt, updatedAt);
  }

  /** Create, delete, get on the same id is "Todo not found". */
  lemma CreateDeleteGet(db: FileStore.DbFile, input: Record, freshId: string, createdAt: string, updatedAt: string)
    requires db.todos.Some? && FileStore.Absent(db.todos.value, JStr(freshId)) && freshId != ""
    requires ValidateCreate(input).Ok?
    ensures
      var r := CreateTodo(db, input, freshId, createdAt, updatedAt);
      && r.Ok?
      && var d := DeleteTodo(r.value.0, JStr(freshId));
      && d == Ok((db, r.value.1))
      && GetTodoById(d.value.0, JStr(freshId)) == Err(NotFound)
  {
    var r := CreateTodo(db, input, freshId, createdAt, updatedAt);
    FileStore.CreatedTodoIsFound(db, ValidateCreate(input).value, freshId, createdAt, updatedAt);
    var before := db.todos.value;
    var after := r.value.0.todos.value;
    var d := FileStore.DeleteTodo(r.value.0, JStr(freshId));
    var rest := d.value.0.todos.value;
    assert rest == before by {
      forall k | 0 <= k < |rest| ensures rest[k] == before[k] {
        assert rest[k] == after[k] == after[..|before|][k];
      }
    }
    assert d.value.0 == db;
  }

  /** Setting only `completed` changes `completed` and `updatedAt` and
      nothing else of the record. */
  lemma UpdateCompletedOnly(db: FileStore.DbFile, id: JValue, c: JValue, now: string)
    requires Truthy(id) && c != JUndef
    requires db.todos.Some? && !FileStore.Absent(db.todos.value, id)
    ensures
      var r := UpdateTodo(db, id, map["completed" := c], now);
      var before := db.todos.value[FileStore.FindIndex(db.todos.value, id)];
      && r.Ok?
      && r.value.1["completed"] == JBool(Truthy(c))
      && r.value.1["updatedAt"] == JStr(now)
      && r.value.1.Keys == before.Keys + {"completed", "updatedAt"}
      && forall k | k in before && k != "completed" && k != "updatedAt" :: r.value.1[k] == before[k]
  {
  }

  /** An id no record has is "Todo not found" for get, update and delete,
      whenever the request is otherwise valid. */
  lemma UnknownIdNotFound(db: FileStore.DbFile, id: JValue, updates: Record, now: string)
    requires Truthy(id) && db.todos.Some? && FileStore.Absent(db.todos.value, id)
    ensures GetTodoById(db, id) == Err(NotFound)
    ensures DeleteTodo(db, id) == Err(NotFound)
    ensures NormalizeUpdate(id, updates).Ok? ==> UpdateTodo(db, id, updates, now) == Err(NotFound)
  {
  }

  /** The empty string fails create's first check but update's second. */
  lemma EmptyTextErrors(id: JValue, input: Record)
    requires Truthy(id) && Get(input, "text") == JStr("")
    ensures ValidateCreate(input) == Err(TextRequired)
    ensures NormalizeUpdate(id, input) == Err(TextEmpty)
  {
  }

  /** The length limit applies to the text as sent: text that fits only
      once trimmed is still too long. */
  lemma LengthCheckedBeforeTrim(input: Record)
    requires Get(input, "text").JStr?
    requires var s := Get(input, "text").s;
      !Blank(s) && Utf16Length(Trim(s)) <= MaxTextLength < Utf16Length(s)
    ensures ValidateCreate(input) == Err(TextTooLong)
  {
  }

  /** `"  buy milk  "` is stored as `"buy milk"`. */
  lemma BuyMilkIsTrimmed(completed: JValue)
    ensures ValidateCreate(map["text" := JStr("  buy milk  "), "completed" := completed]).Ok?
    ensures ValidateCreate(map["text" := JStr("  buy milk  "), "completed" := completed]).value["text"]
      == JStr("buy milk")
  {
    var input := map["text" := JStr("  buy milk  "), "completed" := completed];
    BuyMilkTrim();
    assert Get(input, "text") == JStr("  buy milk  ");
    assert !Blank("  buy milk  ") by {
      assert !IsWhiteSpace("  buy milk  "[2]);
    }
  }

  lemma BuyMilkTrim()
    ensures Trim("  buy milk  ") == "buy milk"
  {
    var s := "  buy milk  ";
    var r := "buy milk";
    assert s[2..10] == r;
    assert IsWhiteSpace(s[0]) && IsWhiteSpace(s[1]) && IsWhiteSpace(s[10]) && IsWhiteSpace(s[11]);
    assert !IsWhiteSpace(r[0]) && !IsWhiteSpace(r[7]);
    assert TrimmedAt(r, s, 2, 10);
    TrimCharacterized(r, s);
  }

  /** Every stored text is clean. */
  predicate AllTextClean(todos: seq<Record>) {
    forall k | 0 <= k < |todos| :: CleanText(Get(todos[k], "text"))
  }

  /** A create through the service keeps every stored text clean. */
  lemma CreateKeepsTextClean(db: FileStore.DbFile, input: Record, freshId: string, createdAt: string, updatedAt: string)
    requires db.todos.Some? && AllTextClean(db.todos.value)
    ensures var r := CreateTodo(db, input, freshId, createdAt, updatedAt);
      r.Ok? ==> AllTextClean(r.value.0.todos.value)
  {
    var r := CreateTodo(db, input, freshId, createdAt, updatedAt);
    if r.Ok? {
      var before := db.todos.value;
      var after := r.value.0.todos.value;
      forall k | 0 <= k < |after| ensures CleanText(Get(after[k], "text")) {
        if k < |before| {
          assert after[k] == after[..|before|][k] == before[k];
        }
      }
    }
  }

  lemma MergeKeepsTextClean(current: Record, n: Record, now: string)
    requires CleanText(Get(current, "text"))
    requires "text" in n ==> CleanText(n["text"])
    ensures CleanText(Get(FileStore.Merge(current, n, now), "text"))
  {
  }

  /** An update through the service keeps every stored text clean; an
      update body cannot hold `undefined`, as it comes from JSON. */
  lemma UpdateKeepsTextClean(db: FileStore.DbFile, id: JValue, updates: Record, now: string)
    requires db.todos.Some? && AllTextClean(db.todos.value)
    requires "text" in updates ==> updates["text"] != JUndef
    ensures var r := UpdateTodo(db, id, updates, now);
      r.Ok? ==> AllTextClean(r.value.0.todos.value)
  {
    var r := UpdateTodo(db, id, updates, now);
    if r.Ok? {
      var before := db.todos.value;
      var after := r.value.0.todos.value;
      var i := FileStore.FindIndex(before, id);
      var n := NormalizeUpdate(id, updates).value;
      assert "text" in n ==> Supplied(updates, "text");
      MergeKeepsTextClean(before[i], n, now);
      forall k | 0 <= k < |after| ensures CleanText(Get(after[k], "text")) {
        if k != i {
          assert after[k] == before[k];
        }
      }
    }
  }

  /** A delete through the service keeps every stored text clean. */
  lemma DeleteKeepsTextClean(db: FileStore.DbFile, id: JValue)
    requires db.todos.Some? && AllTextClean(db.todos.value)
    ensures var r := DeleteTodo(db, id);
      r.Ok? ==> AllTextClean(r.value.0.todos.value)
  {
    var r := DeleteTodo(db, id);
    if r.Ok? {
      var before := db.todos.value;
      var after := r.value.0.todos.value;
      var i := FileStore.FindIndex(before, id);
      forall k | 0 <= k < |after| ensures CleanText(Get(after[k], "text")) {
        if k >= i {
          assert after[k] == before[k + 1];
        } else {
          assert after[k] == before[k];
        }
      }
    }
  }
}
