# Todo backend services in Dafny

This project models the three service modules of the todo backend.

- **Database service, JSON-file backend.** Each operation is a pure function from the parsed data document before to the document after: list, create (append), update (shallow merge at the first matching id) and delete (splice out the first match).
- **Database service, PostgreSQL path.** Only its pure parts are modelled: the backend-choice test in `connectDatabase`, the INSERT parameters, the dynamically built `SET` clause with its `$1..$n` values list, and the turning of returned rows into a result.
- **Todo service.** These are the ordered, first-failure-wins checks on `text`, `completed` and `id`, stated over a small sum type of JavaScript values. Truthiness, `Boolean(x)`, `===`, `trim()` and `length` (in UTF-16 code units) are given exactly for strings of Unicode scalar values. The module also holds `getTodoById`'s first-match lookup.
- **Secrets service.** This is the `cachedSecrets`/`cacheExpiry` state machine: cache hit while `now < expiry`, otherwise a refresh from the secrets manager, the environment or the fallback, re-armed for 300000 ms. It also covers `clearCache` and the key mapping of `getDatabaseConfig`.

Some inputs are parameters:

- the clock (`now`, `createdAt`, `updatedAt`)
- the generated id (`freshId`)
- the process environment (`Env`)
- the outcome of the secrets-manager call (`Fetch`)

A thrown error is the `Err` case of a `Result`, and an operation that fails returns no new document. So "no write happens" holds by construction.

Records are modelled as maps from property names to values, not as a fixed datatype. This is because the source merges arbitrary request properties into stored todos with object spread.

Four behaviours of the code worth knowing:

- **Backend choice.** An unset `DB_HOST` selects PostgreSQL, because `undefined !== 'localhost'`. The comment beside the test says PostgreSQL is used "when DB_HOST is set".
- **Update can rewrite `id` and `createdAt`.** An update body may carry `id` or `createdAt`, and the shallow merge stores them. So the service does not keep ids fixed. `FileStore.UpdateKeepsIds` proves that ids stay distinct when the body carries no `id`.
- **`""` fails differently.** Create rejects `""` with "required and must be a string". Update rejects it with "cannot be empty".
- **Zero expiry.** A cache expiry of `0` is falsy, so it never counts as valid.

## Model

| member | source | states |
|---|---|---|
| JsValue.TrimCharacterized | backend/src/services/todoService.js:33 | `trim()` yields exactly the infix of the string with only white space around it and none at its own ends, in both directions |
| JsValue.TrimEmptyIff | backend/src/services/todoService.js:24-26 | a string trims to "" exactly when every character is JavaScript white space or a line terminator |
| JsValue.TrimIdempotent | backend/src/services/todoService.js:65 | a trimmed text is already trimmed: trimming it again changes nothing |
| JsValue.TrimUtf16Length | backend/src/services/todoService.js:28-33 | trimming never makes the UTF-16 length larger, so text accepted at ≤200 stays ≤200 once trimmed |
| JsValue.TrimStart | backend/src/services/todoService.js:24 | the result is the suffix of the input after its leading white space, and starts with a non-white-space character |
| JsValue.TrimEnd | backend/src/services/todoService.js:24 | the result is the prefix of the input before its trailing white space, and ends with a non-white-space character |
| JsValue.Utf16Length | backend/src/services/todoService.js:28 | `length` counts UTF-16 code units: between the number of characters and twice that |
| JsValue.Utf16LengthInfix | backend/src/services/todoService.js:28 | the length of a slice is at most the length of the whole string |
| JsValue.TrimmedFromUnique | backend/src/services/todoService.js:33 | at most one string is a given string with its surrounding white space removed |
| Decimal.NatToDecimal | backend/src/services/databaseService.js:121 | the `$n` placeholder number is a non-empty digit string with no leading zero |
| Decimal.NatToDecimalValue | backend/src/services/databaseService.js:121 | the digits written for n denote n |
| Decimal.NatToDecimalInjective | backend/src/services/databaseService.js:121-133 | different placeholder numbers are spelled differently |
| Decimal.DigitPrefix | backend/src/services/secretsService.js:81 | `parseInt` reads the longest run of leading decimal digits, stopping at the first non-digit |
| Decimal.ParseIntNatToDecimal | backend/src/services/secretsService.js:81 | `parseInt` reads back any decimal spelling of a natural number |
| Decimal.ParseInt | backend/src/services/secretsService.js:81 | `parseInt` of a blank string is NaN, and of a string that starts with a digit is a non-negative number |
| Decimal.ParseIntUnsignedAfterBlank | backend/src/services/secretsService.js:81 | `parseInt` skips leading white space: white space, digits and then a non-digit give the digits' value |
| Decimal.ParseIntSigned | backend/src/services/secretsService.js:81 | `parseInt` skips leading white space and reads one sign: white space, `-` or `+`, digits and then a non-digit give the digits' value with that sign |
| Decimal.ParseIntStopsAtNonDigit | backend/src/services/secretsService.js:81 | `parseInt` of digits followed by a non-digit yields the digits' value |
| TodoErrors.MessagesDistinct | backend/src/services/todoService.js:21-110 | every kind of error is thrown with a message of its own, so the message identifies the failed check |
| Decimal.ParseDefaultPort | backend/src/services/secretsService.js:44 | the default port string "5432" parses to 5432 |
| FileStore.EmptyFileHasNoTodos | backend/src/services/databaseService.js:22 | the document a fresh data directory gets lists no todos, so its ids are distinct and every lookup misses |
| FileStore.GetTodos | backend/src/services/databaseService.js:82-83 | listing returns the stored records in insertion order, or [] when the document has no `todos` |
| FileStore.FindIndex | backend/src/services/databaseService.js:145 | `findIndex` is -1 exactly when no record has the id, otherwise the position of the first record whose id is `===` the argument |
| FileStore.NewTodo | backend/src/services/databaseService.js:98-104 | a created record has exactly the five properties: the fresh id, the given text, `completed || false`, and the two creation timestamps |
| FileStore.CreateTodo | backend/src/services/databaseService.js:97-109 | create appends exactly one record: length grows by one, earlier records unchanged and in order; without a `todos` array it throws |
| FileStore.GetTodosAfterCreate | backend/src/services/databaseService.js:97-109 | listing after a create is the earlier listing with the new record at the end |
| FileStore.Merge | backend/src/services/databaseService.js:151-155 | shallow merge: properties in `updates` override, including `id`/`createdAt`; absent ones are kept; `updatedAt` always takes the fresh timestamp |
| FileStore.UpdateTodo | backend/src/services/databaseService.js:144-158 | fails "Todo not found" exactly when no record has the id; otherwise replaces only the first match by the merge, with length and all other positions unchanged |
| FileStore.DeleteTodo | backend/src/services/databaseService.js:174-184 | fails "Todo not found" exactly when no record has the id; otherwise removes and returns the first match, the rest keep their order, length drops by one, as a multiset nothing else is lost |
| FileStore.CreatedTodoIsFound | backend/src/services/databaseService.js:97-109 | with a fresh id, the lookup after a create finds the new record at the end |
| FileStore.CreateKeepsIdsDistinct | backend/src/services/databaseService.js:98-106 | creating with a fresh id keeps all ids distinct |
| FileStore.UpdateKeepsIds | backend/src/services/databaseService.js:145-155 | an update without an `id` property keeps ids distinct and the record at the same position |
| FileStore.DeleteRemovesId | backend/src/services/databaseService.js:175-181 | with distinct ids, after a delete no record has the id and the remaining ids stay distinct |
| Relational.SelectBackend | backend/src/services/databaseService.js:28 | the JSON file is used exactly when `NODE_ENV` is not "production" and `DB_HOST` is set to "localhost"; PostgreSQL otherwise |
| Relational.UnsetHostSelectsPostgres | backend/src/services/databaseService.js:28 | an unset `DB_HOST`, or production, selects PostgreSQL |
| Relational.InsertValues | backend/src/services/databaseService.js:90-93 | the INSERT binds the text and `completed || false`: the input's own value when it is truthy, `false` otherwise |
| Relational.BuildUpdate | backend/src/services/databaseService.js:116-130 | only supplied `text`/`completed` are set, text before completed, as `$1..` consecutively; `updated_at = CURRENT_TIMESTAMP` is last; the id is the last value, bound to `$n` with n the length of the values list |
| Relational.CompletedOnlySql | backend/src/services/databaseService.js:116-135 | `UpdateSql` renders the statement `BuildUpdate` plans; updating `completed` alone sends `completed = $1, updated_at = CURRENT_TIMESTAMP WHERE id = $2` with values [completed, id] |
| Relational.BothFieldsSql | backend/src/services/databaseService.js:116-135 | updating both fields sends `text = $1, completed = $2, updated_at = CURRENT_TIMESTAMP WHERE id = $3` with values [text, completed, id] |
| Relational.FirstRow | backend/src/services/databaseService.js:137-141 | no returned row is "Todo not found"; otherwise the first row is the result |
| TodoService.CheckText | backend/src/services/todoService.js:24-33 | blank text is "cannot be empty"; otherwise text longer than 200 code units as sent is "cannot exceed"; otherwise the result is the trimmed text, which is non-empty, trimmed and at most 200 long |
| TodoService.ValidateCreate | backend/src/services/todoService.js:20-35 | checks run in order with the first failure winning (missing/falsy/non-string, then blank, then raw length over 200); success forwards only the trimmed text and `Boolean(completed)` |
| TodoService.NormalizeText | backend/src/services/todoService.js:55-66 | a supplied `text` must be a string, non-blank, at most 200 raw, and exactly such bodies (or bodies without `text`) are accepted; the text is then replaced by its trimmed form; all other properties are kept |
| TodoService.CoerceCompleted | backend/src/services/todoService.js:68-70 | a supplied `completed` becomes `Boolean(completed)`; an absent one stays absent; nothing else changes |
| TodoService.NormalizeUpdate | backend/src/services/todoService.js:51-70 | a falsy id is rejected first, then the text checks; a truthy id with absent or valid text is always accepted; on success every other property of the body reaches the store unchanged |
| TodoService.CreateTodo | backend/src/services/todoService.js:17-41 | a validation failure is returned before the store is touched, whatever the store holds; otherwise the store creates the validated object |
| TodoService.UpdateTodo | backend/src/services/todoService.js:48-76 | a validation failure is returned before the store is touched; otherwise the store merges the normalised body |
| TodoService.DeleteTodo | backend/src/services/todoService.js:83-93 | a falsy id is "Todo ID is required"; otherwise the store deletes |
| TodoService.GetTodoById | backend/src/services/todoService.js:100-113 | "Todo ID is required" exactly when the id is falsy; a truthy id held by a listed record is always answered with the first record that has it; "Todo not found" exactly when no listed record has it |
| TodoService.Find | backend/src/services/todoService.js:107 | `todos.find` fails exactly when no record has the id, and otherwise returns a listed record that has it |
| TodoService.FindAgreesWithFindIndex | backend/src/services/todoService.js:106-111 | `find` and `findIndex` pick the same first record and fail on the same inputs |
| TodoService.CreateThenGet | backend/src/services/todoService.js:32-38 | a created todo is read back by its id, with the trimmed text and `Boolean(input.completed)` |
| TodoService.CreateDeleteGet | backend/src/services/todoService.js:83-111 | create, delete, get on one fresh id restores the stored list and ends in "Todo not found" |
| TodoService.UpdateCompletedOnly | backend/src/services/todoService.js:68-73 | updating only `completed` changes `completed` and `updatedAt` and leaves every other property as it was |
| TodoService.UnknownIdNotFound | backend/src/services/todoService.js:106-111 | an id no record has yields "Todo not found" from get, delete and every valid update, never another error |
| TodoService.EmptyTextErrors | backend/src/services/todoService.js:20-26 | `""` fails create's first check ("required") but update's second ("cannot be empty") |
| TodoService.LengthCheckedBeforeTrim | backend/src/services/todoService.js:28-30 | text over 200 as sent is rejected even when its trimmed form would fit |
| TodoService.BuyMilkIsTrimmed | backend/src/services/todoService.js:32-35 | `"  buy milk  "` is accepted and forwarded as `"buy milk"` |
| TodoService.BuyMilkTrim | backend/src/services/todoService.js:33 | `"  buy milk  ".trim()` is `"buy milk"` |
| TodoService.CreateKeepsTextClean | backend/src/services/todoService.js:32-38 | a create through the service keeps every stored text non-empty, trimmed and at most 200 long |
| TodoService.MergeKeepsTextClean | backend/src/services/todoService.js:65-73 | merging a body with clean or no text keeps the record's text clean |
| TodoService.UpdateKeepsTextClean | backend/src/services/todoService.js:55-73 | an update through the service keeps every stored text clean |
| TodoService.DeleteKeepsTextClean | backend/src/services/todoService.js:83-93 | a delete through the service keeps every stored text clean |
| Secrets.GetSecrets | backend/src/services/secretsService.js:15-74 | a valid cache is returned unchanged; otherwise the remote object (production with a region and a successful fetch) or else the environment's, and the cache holds what is returned with expiry `now + 300000` |
| Secrets.EnvOr | backend/src/services/secretsService.js:43-47 | an environment variable's value when it is set and non-empty, else the default |
| Secrets.EnvSecrets | backend/src/services/secretsService.js:42-48 | the environment-built secrets object has exactly the five `db_` keys, all strings |
| Secrets.EnvSecretsDefaults | backend/src/services/secretsService.js:61-67 | without database variables, the local and fallback secrets are localhost/5432/todoapp/todoapp_user/todoapp_password |
| Secrets.ClearCache | backend/src/services/secretsService.js:90-93 | after `clearCache` no clock reading finds the cache valid |
| Secrets.ClearForcesRefresh | backend/src/services/secretsService.js:90-93 | the call after `clearCache` always refreshes and re-arms the expiry |
| Secrets.FetchOnlyWhenNeeded | backend/src/services/secretsService.js:23 | the remote outcome matters only when the cache is not valid and `NODE_ENV` is production with `AWS_REGION` set |
| Secrets.CachedUntilExpiry | backend/src/services/secretsService.js:17-19 | after a refresh, every call before the expiry returns the same value with no fetch and no state change; at exactly the expiry a refresh occurs |
| Secrets.FallbackSticks | backend/src/services/secretsService.js:55-72 | a failed fetch is not propagated; the fallback is served until expiry even if the remote source recovers |
| Secrets.ParsePort | backend/src/services/secretsService.js:81 | a port string of decimal digits gives its value; a numeric port always gives a number, its truncation when it is non-negative; any other value gives NaN |
| Secrets.Truncate | backend/src/services/secretsService.js:81 | a numeric port loses its fractional part toward zero, as `parseInt(String(n))` does |
| Secrets.GetDatabaseConfig | backend/src/services/secretsService.js:76-86 | `db_host`/`db_port`/`db_name`/`db_user`/`db_password` become `host`/`port` (parsed)/`database`/`user`/`password`; `ssl` is on exactly in production |
| Secrets.LocalDefaultSecrets | backend/src/services/secretsService.js:38-53 | outside production with no database variables, the first call returns the built-in local defaults |
| Secrets.LocalDefaultConfig | backend/src/services/secretsService.js:76-86 | outside production with no database variables the configuration is localhost:5432, todoapp, todoapp_user, todoapp_password, no SSL |

## Left out

- File I/O and JSON are not modelled. This covers `fs` reads and writes, `ensureDataDir`, `JSON.parse` and `JSON.stringify`. The document is the in-memory `DbFile` the operation reads and writes.
- `JSON.stringify` drops properties whose value is `undefined`, and this is not modelled. A request body parsed from JSON never holds `undefined`.
- A `todos` property that holds something other than an array is not modelled. Neither is a stored entry that is not an object.
- PostgreSQL execution is not modelled, because it is a foreign call. This covers the pool, the connection test, `initializeSchema` and `close`. It also covers running the SELECT, INSERT, UPDATE and DELETE statements, and the `ORDER BY created_at DESC` listing. Only the pure builders and the rows-to-result step are modelled.
- The todo service is modelled over the JSON-file backend only. Its calls into the PostgreSQL branch would run SQL.
- `getAllTodos` adds only logging to the store's `getTodos`, so `FileStore.GetTodos` stands for it.
- `uuid().v4()` and `new Date().toISOString()` are parameters. Lemmas that need a fresh, non-empty id say so in their preconditions.
- The secrets service reads `Date.now()` twice: once for the cache test, and again when it sets the new expiry. On the remote branch that second reading comes after the awaited fetch; on the local branch nothing happens in between. The model uses one reading, `now`, for both.
- A secrets-manager string that parses to a non-object is not modelled. For `null`, `getSecrets` caches and returns `null`; the next call refreshes again because `null` is falsy; and `getDatabaseConfig` throws a TypeError reading `db_host`. A fetched secret here is always an object (`Fetched`), and a failed fetch (`FetchFailed`) falls back to the environment. The AWS client, the region default and the secret name are not modelled.
- JavaScript strings are sequences of UTF-16 code units and may hold an unpaired surrogate, for example after `JSON.parse` of `"\uD800"`. A Dafny `string` holds Unicode scalar values, so such a `text` is not representable. The blank check, the 200-unit limit and the trim are not modelled for it.
- Secrets.ParsePort: its contract states the value for all-digit strings, numbers and other values; strings of white space, an optional sign, digits and trailing text are stated by `Decimal.ParseIntSigned` (with a sign) and `Decimal.ParseIntUnsignedAfterBlank` (without one), while the NaN result for a string with no digit after its white space and sign is stated only for blank strings. `parseInt` is modelled for decimal strings and for numbers. It does not model the `0x` hexadecimal prefix. It does not model numbers that print in exponent notation (magnitude below 1e-6 or at least 1e21). It does not model arrays, which convert through `String` to their elements.
- JavaScript numbers are reals plus NaN. `Infinity` and the distinction of `-0` are not modelled.
- Secrets.EnvSecrets: its contract states the key set and that every value is a string. The value of each key is given by `EnvOr`, and the defaults by `EnvSecretsDefaults`.
- The request body is taken to be an object. A body that is not an object would make the property reads throw, and this is not modelled.
- Concurrency is not modelled. Interleaved read-modify-write requests on the file can lose updates, but each operation is modelled as atomic.
- The error-message text of the TypeError thrown for a missing `todos` array comes from the JavaScript engine and is not modelled.
- The logger, server, routes, controller and frontend are not modelled. They are logging, process lifecycle, HTTP pass-through and presentation.
