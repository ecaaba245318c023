# Forgot-password request handler: a Dafny model

The repository is one AWS Lambda handler (`app.ts`). It receives an API Gateway
request whose body is JSON text with a `username`. A `Validator` object checks the
body against four ordered rules. The first rule that fails throws its message:

1. the body is present (not `null`, not empty): "Username Required!";
2. the parsed `username` is truthy: "Username Required!";
3. the username has at least 10 characters: "Username length must be min 10 chars long!";
4. the username contains `'@'`: "Username must be an email address!".

On success the handler scans the user table for records with that exact
username and `isActive = true`. The response is 200 with `"Welcome! " + username`
when the scan returns at least one item. Every thrown error, including
"Invalid user" for an empty scan, becomes 400 with the error's message as body.
The header is always `Content-Type: application/json`.

Files:

- `wrappers.dfy`: `Option` and `Result`, which stand in for `null` and for thrown errors.
- `validator.dfy` (module `Validation`): the `Validator` class with its fields `body`,
  `validity` (spelt `valididity` in the source) and `params`. Its `Validate` method
  changes the fields step by step, as the source does. `Check` is the pure decision
  that specifies it, and `Failure` lists every error with its message.
- `store.dfy` (module `UserStore`): user records. `Scan` selects and projects records
  as the handler's scan command asks.
- `handler.dfy` (module `Handler`): `LambdaHandler` is the handler as written, with
  its locals and its try/catch. It is proved equal to the pure response function `Handle`.

Modelling choices:

- The request body is `Option<string>`. JavaScript's `!body` is true exactly for `None`
  and `Some("")` (`Truthy`).
- `JSON.parse` is a function parameter `parse: string -> ParseOutcome`. The validator
  stores it as a constant, so re-validating a body always gives the same parse.
  A parse either throws (`SyntaxError(message)`) or yields JSON `null` or another value.
  For any other value the model keeps only `username`: `None` when it is absent or a
  falsy non-string, `Some(s)` when it is a string.
- Some behaviour comes from where the source throws. A syntax error leaves `params`
  and `validity` untouched. A body that parses to `null` is stored in `params`, and
  then reading `.username` throws the runtime's TypeError. Neither path resets the
  flag. The four rules themselves reset it to false.
- The validator sets `params` before checking the rules, so after a failure
  `params` may hold that failed parse. A true flag is still safe to rely on: the
  class invariant `Valid` says the body was then accepted and `params` is its parse.
- The store is `Reachable(table)` or `Unreachable(message)`. The second case is a
  scan call that throws. `Scan` keeps the records whose `username` and `isActive` equal
  the command's filter values, projected to `auth_id, username`.
- Errors carry a `Failure` kind (`MissingInput`, `MalformedInput`, `NullPayload`,
  `MissingField`, `TooShort`, `NotAnEmail`, `InvalidUser`, `StoreFailure`). The source
  only has messages. `Message` maps each kind to the text the source throws.
  `MissingInput` and `MissingField` share "Username Required!".

Two consequences of the code are worth stating. First, `params` holds any parse
that returned, including one that then fails a rule (app.ts:25). Second, success
needs at least one matching active record (app.ts:100).

## Model

| member | source | states |
|---|---|---|
| `Validation.Check` | app.ts:17-44 | The body is accepted iff it is truthy, parses, and its username is truthy, has at least 10 characters and contains '@'. The accepted value is the parsed username. Each failure kind occurs exactly when every earlier rule holds and its own rule fails. A parser error keeps the parser's message. The validator never yields the store errors. |
| `Validation.MessagesDistinct` | app.ts:19-41 | `Message` gives each failure the literal the source throws. Two failures whose text the source fixes, rather than taking it from the parser or the store, have the same text only if they are the same failure. The one exception is the missing body and the missing username, which share "Username Required!". A 400 body therefore names the rule that failed. |
| `Validation.ParamsAfter` | app.ts:19-43 | The stored parameters after validation. On success they hold the accepted username. A missing body or a parser exception leaves them unchanged. A `null` parse stores `null`. A parse rejected by one of the three username rules stays stored. |
| `Validation.FlagAfter` | app.ts:19-43 | The flag after validation. It is true on success and false after a missing body or a failed username rule. A parser exception or a `null` parse keeps the previous flag. |
| `Validation.Validator.constructor` | app.ts:12-15 | Stores the body. The flag starts false. `params` starts as the empty object. The invariant holds. |
| `Validation.Validator.Validate` | app.ts:17-44 | Returns normally exactly when `Check` accepts, and throws `Check`'s failure otherwise. The body is unchanged. The flag becomes `Check`'s verdict, except that a parser exception or a `null` parse keeps the old flag. `params` becomes the parse whenever the parser returned. The invariant is preserved. |
| `Validation.Validator.GetParameters` | app.ts:46-48 | Reads only. When the flag is set, the returned parameters hold a username that passes every rule and is the one `Check` accepts. |
| `Validation.Validator.IsValid` | app.ts:50-52 | Reads only. A true flag implies that `Check` accepts the stored body and that `params` is its parse. |
| `Validation.FreshFlag` | app.ts:14-43 | If the flag is false before validation, as after construction, or already implies acceptance, it ends true iff validation succeeds. So any failure leaves it false. |
| `Validation.ValidateIdempotent` | app.ts:17-44 | Validating the same body a second time changes neither the flag nor `params`. |
| `UserStore.Scan` | app.ts:86-98 | Filters with `Selects`, the filter expression that compares username and `isActive` (app.ts:89-93), and returns items as built by `Project`, which keeps `auth_id` and `username` (app.ts:87). Returns at most as many items as records. The result is non-empty iff some record matches the username and activity filter. Every item is the projection of a matching record, and every matching record's projection appears. |
| `UserStore.ScanFindsActiveUser` | app.ts:89-100 | The handler's scan, with `isActive = true`, is non-empty iff the table holds an active record with that exact username. |
| `UserStore.ScanIgnoresOrder` | app.ts:86-100 | Two tables with the same records give scans that are both empty or both non-empty, whatever the record order. |
| `Handler.Lookup` | app.ts:83-107 | After validation, the welcome text "Welcome! " + username is produced iff the store is reachable and holds an active user with that name. Otherwise the result is the store's error, or "Invalid user" when there is no match. |
| `Handler.Handle` | app.ts:66-121 | Headers are always the JSON content type. The status is 200 or 400. It is 200 iff validation succeeds and an active user with that username is stored, and then the body is "Welcome! " + username. A validation failure gives 400 with that failure's message. A store error gives 400 with the store's message. No match gives 400 with "Invalid user". |
| `Handler.LambdaHandler` | app.ts:66-121 | The handler, with its locals, the validator object and the try/catch, returns exactly `Handle` of the event body, the parser and the store. |
| `Handler.WelcomeExample` | app.ts:100-107 | The body `{"username":"person10@x.com"}` against a table with that active user gives 200 "Welcome! person10@x.com". |
| `Handler.ShortExample` | app.ts:33-36 | The body `{"username":"short"}` gives 400 with the length message, whatever the store holds. |
| `Handler.InactiveExample` | app.ts:89-101 | A username whose only record is inactive gives 400 "Invalid user". |
| `Handler.EmptyBodyRefused` | app.ts:19-23 | An absent or empty body gives 400 "Username Required!", whatever the parser and the store. |
| `Handler.HandleIgnoresTableOrder` | app.ts:86-107 | The response depends on which records the table holds, not on their order. |

## Left out

- AWS SDK calls (`DynamoDBClient`, `DynamoDBDocumentClient`, `ScanCommand`, `dynamo.send`): network I/O. They are replaced by the `Store` value and the `Scan` function.
- Scan pagination: a real scan reads at most 1 MB per call. The source ignores `LastEvaluatedKey`, so a match beyond the first page would read as "Invalid user". The model scans the whole table in one call.
- `ConsistentRead: true`: the model reads the table exactly as given, which is what a strongly consistent read promises.
- `process.env.TABLE_NAME`: ambient configuration that does not affect the modelled logic.
- `JSON.parse` internals and its error messages: the parser is the `parse` parameter. The text of the TypeError for a `null` payload is Node.js's; the model fixes it as a constant.
- `async`/`await` and the Lambda event and result types beyond the event's `body` and the result's `statusCode`, `body` and `headers`: runtime plumbing.
- Non-string `username` values: a truthy non-string (a number or an object) is not modelled. Its `.length` and `.includes` behaviour in JavaScript is dynamic.
- `Validation.Check`: lengths count Dafny characters (Unicode scalar values), while JavaScript's `.length` counts UTF-16 code units. A username with characters outside the Basic Multilingual Plane is counted shorter here than in the source.
