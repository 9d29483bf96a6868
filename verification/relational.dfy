/** The pure parts of the PostgreSQL path of the database service: which
    backend `connectDatabase` picks, the parameter lists of the INSERT and
    of the dynamically built UPDATE, and how an UPDATE or DELETE's
    returned rows become a result. Executing SQL is not modelled. */
module Relational {
  import opened Results
  import opened JsValue
  import opened TodoErrors
  import Decimal
  import FileStore

  datatype Backend = JsonFile | Postgres

  /** `connectDatabase`: PostgreSQL when `NODE_ENV === 'production' ||
      DB_HOST !== 'localhost'`, the JSON file otherwise. */
  function SelectBackend(env: Env): (b: Backend)
    ensures b == JsonFile <==>
      && !("NODE_ENV" in env && env["NODE_ENV"] == "production")
      && "DB_HOST" in env && env["DB_HOST"] == "localhost"
  {
    if StrictEq(EnvGet(env, "NODE_ENV"), JStr("production"))
      || !StrictEq(EnvGet(env, "DB_HOST"), JStr("localhost"))
    then Postgres
    else JsonFile
  }

  /** Leaving `DB_HOST` unset selects PostgreSQL, as does production. */
  lemma UnsetHostSelectsPostgres(env: Env)
    ensures "DB_HOST" !in env ==> SelectBackend(env) == Postgres
    ensures "NODE_ENV" in env && env["NODE_ENV"] == "production" ==> SelectBackend(env) == Postgres
  {
  }

  /** `[todo.text, todo.completed || false]`, the INSERT's parameters. */
  function InsertValues(todo: Record): (v: seq<JValue>)
    ensures |v| == 2 && v[0] == Get(todo, "text")
    ensures Truthy(v[1]) == Truthy(Get(todo, "completed"))
    ensures !Truthy(Get(todo, "completed")) ==> v[1] == JBool(false)
    ensures Truthy(Get(todo, "completed")) ==> v[1] == Get(todo, "completed")
  {
    [Get(todo, "text"), Or(Get(todo, "completed"), JBool(false))]
  }

  /** Both backends store the same `text` and `completed` for a todo. */
  lemma InsertAgreesWithFile(todo: Record, freshId: string, createdAt: string, updatedAt: string)
    ensures
      var t := FileStore.NewTodo(todo, freshId, createdAt, updatedAt);
      InsertValues(todo) == [t["text"], t["completed"]]
  {
  }

  /** One entry of the SET clause. */
  datatype SetItem = Assign(column: string, param: nat) | TouchUpdatedAt

  /** An UPDATE statement: its SET entries, the parameter values bound to
      `$1..$n`, and the placeholder number the WHERE clause uses for the
      id. */
  datatype UpdateStatement = UpdateStatement(sets: seq<SetItem>, values: seq<JValue>, idParam: nat)

  /** The SET clause and values list built by `updateTodo`. */
  function BuildUpdate(id: JValue, updates: Record): (q: UpdateStatement)
    ensures |q.sets| == |q.values| >= 1 && q.idParam == |q.values|
    ensures q.sets[|q.sets| - 1] == TouchUpdatedAt && q.values[|q.values| - 1] == id
    ensures |q.sets| - 1 ==
      (if Supplied(updates, "text") then 1 else 0) + (if Supplied(updates, "completed") then 1 else 0)
    ensures forall k | 0 <= k < |q.sets| - 1 ::
      && q.sets[k].Assign?
      && q.sets[k].param == k + 1
      && q.sets[k].column in {"text", "completed"}
      && Supplied(updates, q.sets[k].column)
      && q.values[k] == Get(updates, q.sets[k].column)
    ensures forall k, l | 0 <= k < l < |q.sets| - 1 ::
      q.sets[k].column == "text" && q.sets[l].column == "completed"
  {
    var text := Get(updates, "text");
    var completed := Get(updates, "completed");
    var sets1, values1, next1 :=
      if text != JUndef then [Assign("text", 1)] else [],
      if text != JUndef then [text] else [],
      if text != JUndef then 2 else 1;
    var sets2, values2, next2 :=
      if completed != JUndef then sets1 + [Assign("completed", next1)] else sets1,
      if completed != JUndef then values1 + [completed] else values1,
      if completed != JUndef then next1 + 1 else next1;
    UpdateStatement(sets2 + [TouchUpdatedAt], values2 + [id], next2)
  }

  function RenderSetItem(item: SetItem): string {
    match item
    case Assign(column, param) => column + " = $" + Decimal.NatToDecimal(param)
    case TouchUpdatedAt => "updated_at = CURRENT_TIMESTAMP"
  }

  /** `items.join(sep)`. */
  function Join(items: seq<string>, sep: string): string {
    if |items| == 0 then ""
    else if |items| == 1 then items[0]
    else items[0] + sep + Join(items[1..], sep)
  }

  function RenderSets(sets: seq<SetItem>): seq<string> {
    if |sets| == 0 then [] else [RenderSetItem(sets[0])] + RenderSets(sets[1..])
  }

  /** The SQL text sent with the values list. */
  function UpdateSql(q: UpdateStatement): string {
    "UPDATE todos SET " + Join(RenderSets(q.sets), ", ")
      + " WHERE id = $" + Decimal.NatToDecimal(q.idParam) + " RETURNING *"
  }

  lemma JoinTwo(a: string, b: string, sep: string)
    ensures Join([a, b], sep) == a + sep + b
  {
    assert [a, b][1..] == [b];
  }

  lemma JoinThree(a: string, b: string, c: string, sep: string)
    ensures Join([a, b, c], sep) == a + sep + (b + sep + c)
  {
    assert [a, b, c][1..] == [b, c];
    JoinTwo(b, c, sep);
  }

  lemma RenderTwo(x: SetItem, y: SetItem)
    ensures RenderSets([x, y]) == [RenderSetItem(x), RenderSetItem(y)]
  {
    assert [x, y][1..] == [y];
    assert [y][1..] == [];
    assert RenderSets([y]) == [RenderSetItem(y)] + RenderSets([]);
  }

  lemma RenderThree(x: SetItem, y: SetItem, z: SetItem)
    ensures RenderSets([x, y, z]) == [RenderSetItem(x), RenderSetItem(y), RenderSetItem(z)]
  {
    assert [x, y, z][1..] == [y, z];
    RenderTwo(y, z);
  }

  /** An update of `completed` alone sets it through `$1` and binds the id
      to `$2`. */
  lemma CompletedOnlySql(id: JValue, updates: Record)
    requires !Supplied(updates, "text") && Supplied(updates, "completed")
    ensures BuildUpdate(id, updates).values == [Get(updates, "completed"), id]
    ensures UpdateSql(BuildUpdate(id, updates)) == "UPDATE todos SET "
      + (("completed" + " = $" + "1") + ", " + "updated_at = CURRENT_TIMESTAMP")
      + " WHERE id = $" + "2" + " RETURNING *"
  {
    var q := BuildUpdate(id, updates);
    assert q.sets == [Assign("completed", 1), TouchUpdatedAt];
    assert Decimal.NatToDecimal(1) == "1" && Decimal.NatToDecimal(2) == "2";
    RenderTwo(q.sets[0], q.sets[1]);
    JoinTwo("completed" + " = $" + "1", "updated_at = CURRENT_TIMESTAMP", ", ");
  }

  /** With both fields, text comes first: `$1` text, `$2` completed, `$3`
      id. */
  lemma BothFieldsSql(id: JValue, updates: Record)
    requires Supplied(updates, "text") && Supplied(updates, "completed")
    ensures BuildUpdate(id, updates).values == [Get(updates, "text"), Get(updates, "completed"), id]
    ensures UpdateSql(BuildUpdate(id, updates)) == "UPDATE todos SET "
      + (("text" + " = $" + "1") + ", " + (("completed" + " = $" + "2") + ", " + "updated_at = CURRENT_TIMESTAMP"))
      + " WHERE id = $" + "3" + " RETURNING *"
  {
    var q := BuildUpdate(id, updates);
    assert q.sets == [Assign("text", 1), Assign("completed", 2), TouchUpdatedAt];
    assert Decimal.NatToDecimal(1) == "1" && Decimal.NatToDecimal(2) == "2" && Decimal.NatToDecimal(3) == "3";
    RenderThree(q.sets[0], q.sets[1], q.sets[2]);
    JoinThree("text" + " = $" + "1", "completed" + " = $" + "2", "updated_at = CURRENT_TIMESTAMP", ", ");
  }

  /** `result.rows.length === 0` is "Todo not found"; otherwise the first
      returned row is the result. */
  function FirstRow(rows: seq<Record>): (r: Result<Record, Error>)
    ensures r.Err? <==> |rows| == 0
    ensures r.Err? ==> r.error == NotFound
    ensures r.Ok? ==> r.value == rows[0]
  {
    if |rows| == 0 then Err(NotFound) else Ok(rows[0])
  }
}
