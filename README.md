# Employee store: repository, resolvers and authentication in Dafny

This project models the core of a small GraphQL employee store.

- **The in-memory repository** (`src/db.js`). It keeps a module-level list of employee documents. `findAll`, `findById`, `findByEmail`, `create`, `updateById`, `deleteById` and `insertMany` read it, append to it, merge into one entry or filter it.
- **The `serialize` mapping** (`src/db.js`). It turns a MongoDB document into a plain object.
- **The resolvers** (`src/schema/resolvers.js`):
  - the authentication and role checks of `employees`, `employee`, `me`, `login`, `addEmployee`, `updateEmployee` and `deleteEmployee`;
  - the query document `employees` builds from its filter;
  - the sort, skip and limit applied to that query;
  - the name-only stripping of a self-update.
- **The `employeeById` batch function** (`src/dataloaders/index.js`).
- **The two guards** `requireAdmin` and `requireAuth` (`src/auth/roleGuard.js`).
- **The two ways a bearer header becomes a caller**:
  - `authContext` (`src/auth/jwt.js`) projects the verified claims onto `{id, role, name}`;
  - `getUser` (`src/middleware/auth.js`) strips the first `Bearer ` and returns the verified payload verbatim.

Modules and files:

| module | file | models |
|---|---|---|
| `Js` | js.dfy | `undefined`/`null` as `Option`, a thrown error as `Result`, JavaScript truthiness |
| `Strings` | strings.dfy | `indexOf`, `replace` with a string pattern, the case-insensitive `$regex` test, MongoDB's string order |
| `EmployeeRecord` | employee_record.dfy | the employee document, the update object and the object spread that merges them |
| `Tokens` | tokens.dfy | the verified token payload and the verifier |
| `Db` | db.dfy | the `Repository` class (the in-memory repository) and `serialize` |
| `Jwt` | jwt.dfy | `authContext` |
| `AuthMiddleware` | auth_middleware.dfy | `getUser` |
| `RoleGuard` | role_guard.dfy | `requireAdmin`, `requireAuth` |
| `Dataloaders` | dataloaders.dfy | `employeeById` |
| `QueryEngine` | query_engine.dfy | MongoDB's `countDocuments`, `find`, `sort`, `skip` and `limit` on the query `employees` builds |
| `Resolvers` | resolvers.dfy | the resolvers |

The resolvers are methods over a `Db.Repository`. The `Employee` model's `findById`, `findOne`, `save`, `findByIdAndUpdate` and `findByIdAndDelete` are its `FindById`, `FindByEmail`, `Create`, `UpdateById` and `DeleteById`. `countDocuments` and `find` are `QueryEngine.Select` over its records.

The caller a resolver sees is the verbatim payload `getUser` returns, which is how `src/index.js` wires the two together. The guards see the context `authContext` builds, which is how `src/server.js` wires those two.

Behaviour of the code worth knowing:

- `create` (src/db.js:71-76) makes no email-uniqueness check and raises no conflict.
- The sort is descending unless `sortBy.order` is exactly `'asc'` (src/schema/resolvers.js:29), and no stability is promised.
- The resolvers read their arguments as they destructure them. The GraphQL schema declares other shapes: `nameContains` instead of `name` (src/schema/typeDefs.js:23), `direction` instead of `order` (src/schema/typeDefs.js:33), an `input` wrapper for the mutations (src/schema/typeDefs.js:91-92), a page type with `total`, `page`, `pageSize` and `items` where `employees` returns `employees`, `totalCount` and `totalPages` (src/schema/typeDefs.js:41-46, src/schema/resolvers.js:41), and no `me` query (src/schema/typeDefs.js:85-88). The model follows the resolvers.
- A clause with a falsy value (`""`, `0`) adds no condition (src/schema/resolvers.js:19-24).
- `login` returns the whole stored document, hash included (src/schema/resolvers.js:72). The token it signs carries `id` and `role` but no `name`, so `IssuedClaims` has no name.
- `serialize` copies `passwordHash` into its output (src/db.js:108).
- A non-admin's self-update that also sends keys other than `name` is not rejected when `name` is truthy (src/schema/resolvers.js:93-108). The other keys are dropped.
- `deleteById` in memory removes every record with the id (src/db.js:86). On MongoDB only one record can have it.
- The MongoDB schema has no `flagged` path (src/models/Employee.js:3-14). `save` and `findByIdAndUpdate` drop that key, so `addEmployee` and `updateEmployee` never store it.

## Model

| member | source | states |
|---|---|---|
| `EmployeeRecord.Merge` | src/db.js:80 | `{ ...e, ...p }`: each key the update supplies replaces the record's value, every other key is kept; no contract of its own, its properties are `MergeEmpty`, `MergeIdempotent` and `ApplyUpdateKeepsIds` |
| `EmployeeRecord.MergeEmpty` | src/db.js:80 | merging an update with no keys leaves the record as it was |
| `EmployeeRecord.MergeIdempotent` | src/db.js:80 | merging the same update twice gives the same record as merging it once |
| `Strings.IndexOf` | src/middleware/auth.js:7 | the result is -1 or a position where the pattern occurs, and the pattern occurs at no earlier position |
| `Strings.ReplaceFirst` | src/middleware/auth.js:7 | `replace` with a string pattern: the text before the first occurrence, the replacement, then the text after it, or the text unchanged when there is none; no contract of its own, its properties are `ReplaceFirstAtStart` and `ReplaceFirstKeepsLater` |
| `Strings.ReplaceFirstAtStart` | src/middleware/auth.js:7 | when the text starts with the pattern, removing its first occurrence removes exactly that prefix |
| `Strings.ReplaceFirstKeepsLater` | src/middleware/auth.js:7 | removing the first occurrence keeps the text before it and every later occurrence |
| `Strings.ContainsIgnoringCaseMeans` | src/schema/resolvers.js:19 | the name test holds exactly when the lower-cased needle occurs somewhere in the lower-cased name |
| `Strings.ContainsIgnoresCase` | src/schema/resolvers.js:19 | the name test gives the same answer whatever the case of the name or of the needle |
| `Strings.LexLe` | src/schema/resolvers.js:37 | binary string comparison, character by character, a prefix before the longer string; no contract of its own, its properties are `LexLeTotal` and `LexLeTransitive` |
| `Strings.LexLeTotal` | src/schema/resolvers.js:37 | any two strings are ordered one way or the other under the binary string order |
| `Strings.LexLeTransitive` | src/schema/resolvers.js:37 | the binary string order is transitive |
| `Db.FirstIndex` | src/db.js:78 | `findIndex` returns -1 when no record has the key, otherwise the position of the first record that has it |
| `Db.Find` | src/db.js:65-70 | the lookup finds something exactly when some stored record has the key, and what it finds is a stored record with that key |
| `Db.Without` | src/db.js:86 | after deletion a record remains exactly when it was stored and its id differs from the deleted one; the store never grows |
| `Db.WithoutAbsent` | src/db.js:85-87 | deleting an id that no record has leaves the store unchanged |
| `Db.WithoutIdempotent` | src/db.js:85-87 | deleting the same id twice leaves the same store as deleting it once |
| `Db.WithoutAppend` | src/db.js:86 | deletion distributes over concatenation, so the kept records keep their original order |
| `Db.WithId` | src/db.js:72-73 | `payload.id` or a generated id: the payload keeps a non-empty id and otherwise takes the fresh one, also the per-item rule of `insertMany` (src/db.js:89); no contract of its own, `Repository.Create` and `Repository.InsertMany` state its effect |
| `Db.ApplyUpdate` | src/db.js:77-84 | the store after `updateById`: the first record with the id merged with the update, or the store unchanged when none has it; no contract of its own, its properties are `ApplyUpdateFrame` and `ApplyUpdateKeepsIds` |
| `Db.ApplyUpdateFrame` | src/db.js:77-84 | an update keeps the store's length and changes no record that lacks the id; with no match the store is unchanged |
| `Db.AppendKeepsUnique` | src/db.js:74 | appending a record whose id is not stored keeps stored ids unique |
| `Db.WithoutKeepsUnique` | src/db.js:86 | deleting keeps stored ids unique |
| `Db.ApplyUpdateKeepsIds` | src/db.js:77-84 | an update that sends no `id` keeps every record's id, so stored ids stay unique |
| `Db.Repository.constructor` | src/db.js:4 | the store starts empty |
| `Db.Repository.FindAll` | src/db.js:62-64 | returns every stored record in store order and changes nothing |
| `Db.Repository.FindById` | src/db.js:65-67 | returns the first record with the id, which is stored and has that id; null exactly when no record has the id |
| `Db.Repository.FindByEmail` | src/db.js:68-70 | returns the first record with the email; null exactly when no record has it |
| `Db.Repository.Create` | src/db.js:71-76 | appends exactly one record at the end, under the payload's id when it is non-empty and the fresh id otherwise; every other key comes from the payload; returns the stored record; no email check |
| `Db.Repository.UpdateById` | src/db.js:77-84 | merges the update over the first record with the id and returns the merged record; all other records are unchanged; with no match returns null and leaves the store unchanged |
| `Db.Repository.DeleteById` | src/db.js:85-87 | the new store is the old one without every record with the id |
| `Db.Repository.InsertMany` | src/db.js:88-90 | keeps the old records as a prefix and appends one record per item in input order, each under its own id or its fresh id; the store grows by the number of items |
| `Db.Serialize` | src/db.js:94-109 | `id` is `_id` when it is truthy and otherwise `id` (the text "undefined" when both are missing); `subjects` defaults to empty; `flagged` is true only for `true`; a `Date` is written through `toISOString`; the other fields are copied unchanged |
| `Db.SerializeIdempotent` | src/db.js:94-109 | serializing an already serialized record changes nothing |
| `Jwt.Project` | src/auth/jwt.js:9 | the principal `{ id, role, name }` taken from the verified claims; no contract of its own, `ProjectionDropsOtherClaims` states that nothing else matters |
| `Jwt.AuthContextOf` | src/auth/jwt.js:3-13 | the context has a user exactly when the header starts with `Bearer `, something follows the prefix, and that rest verifies; the user is then the projection of the verified claims |
| `Jwt.MissingHeaderIsAnonymous` | src/auth/jwt.js:4-6 | a missing header yields `{user: null}` |
| `Jwt.NonBearerSkipsVerify` | src/auth/jwt.js:5-6 | a header without the `Bearer ` prefix yields `{user: null}` whatever the verifier does |
| `Jwt.OnlySlicedTokenVerified` | src/auth/jwt.js:5-8 | the only token consulted is the header without its first 7 characters |
| `Jwt.ProjectionDropsOtherClaims` | src/auth/jwt.js:9 | the principal depends only on the `id`, `role` and `name` claims |
| `AuthMiddleware.GetUser` | src/middleware/auth.js:3-14 | a falsy token gives null; otherwise the result is exactly what verification returns for the token without its first `Bearer ` (null on failure) |
| `AuthMiddleware.FalsyTokenSkipsVerify` | src/middleware/auth.js:4-13 | a falsy token gives null whatever the verifier does |
| `AuthMiddleware.StripsFirstBearerAnywhere` | src/middleware/auth.js:7-8 | the first `Bearer ` is removed even when it is not a prefix, and later ones are kept |
| `AuthMiddleware.AgreesWithAuthContext` | src/middleware/auth.js:7-8 | on a `Bearer <token>` header `getUser` and `authContext` verify the same token; one returns the payload, the other its projection |
| `RoleGuard.UserOf` | src/auth/roleGuard.js:2-8 | `ctx?.auth?.user`: missing as soon as `ctx` or `ctx.auth` is missing; no contract of its own, `MissingContextFails` states its effect on the guards |
| `RoleGuard.RequireAdmin` | src/auth/roleGuard.js:1-5 | passes exactly when `ctx.auth.user` exists and its role is `admin`; otherwise fails with "Admin privileges required" |
| `RoleGuard.RequireAuth` | src/auth/roleGuard.js:7-9 | passes exactly when `ctx.auth.user` exists; otherwise fails with "Authentication required" |
| `RoleGuard.AdminImpliesAuth` | src/auth/roleGuard.js:1-9 | whenever the admin guard passes, the authentication guard passes |
| `RoleGuard.MissingContextFails` | src/auth/roleGuard.js:2-8 | a missing `ctx` or `ctx.auth` makes each guard fail with its own message |
| `Dataloaders.IndexById` | src/dataloaders/index.js:8 | the `Map` built from `findAll`, entries set in store order so a later record with the same id replaces an earlier one; no contract of its own, `IndexByIdIsLastWins` states what it holds |
| `Dataloaders.LastIndex` | src/dataloaders/index.js:8 | -1 when no record has the id, otherwise the position of the last record that has it |
| `Dataloaders.IndexByIdIsLastWins` | src/dataloaders/index.js:8 | the map built from `findAll` holds an id exactly when some record has it, and maps it to the last such record |
| `Dataloaders.EmployeeById` | src/dataloaders/index.js:6-10 | one result per requested id, in request order; each result is the last stored record with that id, or null exactly when none has it; equal ids give equal results |
| `QueryEngine.Matches` | src/schema/resolvers.js:34-36 | MongoDB's test of a document against the query: every condition present holds (`_id` equality, case-insensitive name, inclusive age and attendance bounds, role equality); no contract of its own, `Resolvers.BuildQuery` ties it to the filter |
| `QueryEngine.Select` | src/schema/resolvers.js:34-36 | `find`/`countDocuments` select exactly the stored records that match the query |
| `QueryEngine.KeyOf` | src/schema/resolvers.js:37 | the value sorted on for a field: numbers for `age`, `attendance` and `date`, strings for the text fields and `_id`, missing for any other field; no contract of its own |
| `QueryEngine.KeyLe` | src/schema/resolvers.js:37 | MongoDB's order on sort values: missing, then numbers by value, then strings in binary order; no contract of its own, its properties are `KeyLeTotal` and `KeyLeTransitive` |
| `QueryEngine.KeyLeTotal` | src/schema/resolvers.js:37 | any two sort values are comparable under MongoDB's order (missing, then numbers, then strings) |
| `QueryEngine.KeyLeTransitive` | src/schema/resolvers.js:37 | MongoDB's order on sort values is transitive |
| `QueryEngine.BeforeTotal` | src/schema/resolvers.js:28-32 | any two records are ordered one way or the other under a one-key sort, ascending or descending |
| `QueryEngine.BeforeTransitive` | src/schema/resolvers.js:28-32 | a one-key sort order is transitive |
| `QueryEngine.InsertSorted` | src/schema/resolvers.js:37 | inserting into a sorted list keeps it sorted |
| `QueryEngine.InsertPermutes` | src/schema/resolvers.js:37 | inserting adds exactly the inserted record |
| `QueryEngine.Sort` | src/schema/resolvers.js:37 | `.sort(sort)` as one order MongoDB may return, built by insertion; no contract of its own, its properties are `SortSorted`, `SortPermutes` and `SortCorrect` |
| `QueryEngine.SortSorted` | src/schema/resolvers.js:37 | the sorted result is ordered by the sort key in the requested direction |
| `QueryEngine.SortPermutes` | src/schema/resolvers.js:37 | the sorted result is a permutation of its input |
| `QueryEngine.SortCorrect` | src/schema/resolvers.js:37 | the sorted result is ordered by the sort key in the requested direction and is a permutation of its input |
| `QueryEngine.Window` | src/schema/resolvers.js:38-39 | for a positive limit, skip/limit returns the records from the skip position on, at most `limit` of them, and nothing past the end |
| `QueryEngine.CeilDiv` | src/schema/resolvers.js:35 | `totalPages` times `pageSize` covers `totalCount`, and one page fewer does not |
| `QueryEngine.OffsetIsProduct` | src/schema/resolvers.js:38 | page k + 1 starts at k times `pageSize`, the skip the resolver passes |
| `QueryEngine.PagesUpToIsPrefix` | src/schema/resolvers.js:35-39 | pages 1 to k together are the records of the sorted result before page k + 1's start |
| `QueryEngine.AllPagesCoverAll` | src/schema/resolvers.js:35-39 | pages 1 to `totalPages` together give back the whole sorted result, with no record missing or repeated |
| `QueryEngine.PastLastPageEmpty` | src/schema/resolvers.js:35-39 | a page past `totalPages` is empty |
| `Resolvers.PageNumber` | src/schema/resolvers.js:8 | `page = 1`: the requested page, 1 when the argument is omitted; no contract of its own |
| `Resolvers.PageSize` | src/schema/resolvers.js:8 | `pageSize = 10`: the page size, 10 when the argument is omitted; no contract of its own |
| `Resolvers.Skip` | src/schema/resolvers.js:38 | `(page - 1) * pageSize`, the records skipped before the requested page; no contract of its own, `QueryEngine.OffsetIsProduct` ties it to the pages |
| `Resolvers.OrderOf` | src/schema/resolvers.js:27-32 | the sort document: the `sortBy` field, ascending exactly when the order is `'asc'`, and `date` descending without `sortBy`; no contract of its own |
| `Resolvers.IsAdmin` | src/schema/resolvers.js:14 | `user.role === 'admin'` on the verified payload; no contract of its own |
| `Resolvers.IsSelf` | src/schema/resolvers.js:46 | `user.id === id` on the verified payload; no contract of its own |
| `Resolvers.PassesFilter` | src/schema/resolvers.js:18-25 | each truthy filter clause is a condition that must hold and a falsy clause adds none; no contract of its own, `FalsyFilterIgnored` and `BoundsInclusive` state its properties |
| `Resolvers.Listed` | src/schema/resolvers.js:14-25 | a record is in the caller's scope (any record for an admin, the own record otherwise) and passes the filter; no contract of its own, `BuildQuery` and `Listing` are stated with it |
| `Resolvers.Listing` | src/schema/resolvers.js:14-25 | a record is listed exactly when it is stored, in the caller's scope, and passes every truthy filter clause |
| `Resolvers.SelectIsListing` | src/schema/resolvers.js:18-36 | a query that matches exactly the listed records selects the listing itself, in store order |
| `Resolvers.BuildQuery` | src/schema/resolvers.js:11-25 | the query matches a record exactly when the record is in the caller's scope and passes the filter; for a non-admin the `_id` condition is the caller's id whatever the filter holds |
| `Resolvers.EmployeesQuery` | src/schema/resolvers.js:8-42 | fails "Not authenticated" exactly when there is no user and succeeds for every logged-in caller; then `totalCount` is the number of listed records, `totalPages` its ceiling division by `pageSize`, and `employees` the requested page of the listed records in the requested order |
| `Resolvers.ListingOfUnlisted` | src/schema/resolvers.js:14-25 | when no stored record passes, the listing is empty |
| `Resolvers.NonAdminListsAtMostSelf` | src/schema/resolvers.js:14-16 | for a non-admin with unique stored ids, every listed record is the caller's own and `totalCount` is at most 1 |
| `Resolvers.PageRecordsListed` | src/schema/resolvers.js:14-39 | every record on a returned page is a stored, listed record, and the caller's own for a non-admin |
| `Resolvers.FalsyFilterIgnored` | src/schema/resolvers.js:18-25 | a filter whose clauses are all falsy lists the same records as no filter |
| `Resolvers.BoundsInclusive` | src/schema/resolvers.js:20-24 | with non-zero bounds a record in scope is listed exactly when its age and attendance lie within them, ends included |
| `Resolvers.EmployeeQuery` | src/schema/resolvers.js:43-50 | "Not authenticated" without a user, Forbidden for a non-admin asking for another id, otherwise the stored record with the id or null |
| `Resolvers.MeQuery` | src/schema/resolvers.js:51-54 | "Not authenticated" exactly when there is no user and succeeds for every logged-in caller, with the caller's own stored record, or null |
| `Resolvers.IssuedClaims` | src/schema/resolvers.js:66-70 | the signed claims identify the employee as self, make the caller an admin exactly when the employee's role is admin, and carry no name |
| `Resolvers.Login` | src/schema/resolvers.js:57-73 | succeeds exactly when a record has the email and the password matches its hash; every failure, unknown email or wrong password alike, is the same "Invalid credentials" error; success returns the signed token and the stored record |
| `Resolvers.AddEmployee` | src/schema/resolvers.js:74-80 | a non-admin gets "Not authorized" and the store is unchanged; an admin's record is appended under a fresh id with the password replaced by its hash and no `flagged` stored; with a fresh id, stored ids stay unique |
| `Resolvers.SelfUpdate` | src/schema/resolvers.js:92-93 | the update a non-admin keeps: the name when it is truthy, nothing else; no contract of its own, `SelfUpdateOnlyName` states its properties |
| `Resolvers.Stored` | src/schema/resolvers.js:111 | the update MongoDB applies has no `flagged`, which has no schema path, and every other key as sent |
| `Resolvers.SelfUpdateOnlyName` | src/schema/resolvers.js:91-108 | a kept self-update changes at most the name, so other keys are dropped; it is empty exactly when the name is falsy |
| `Resolvers.UpdateEmployee` | src/schema/resolvers.js:81-112 | "Not authenticated" without a user; Forbidden for a non-admin updating another id; Forbidden for a self-update with keys but no truthy name; success in every other case; a failure leaves the store unchanged; on success an admin's update is applied without `flagged`, and a self-update only as its name; stored ids stay unique |
| `Resolvers.DeleteEmployee` | src/schema/resolvers.js:113-117 | a non-admin gets "Not authorized" and the store is unchanged; for an admin the result is `true` and every record with the id is removed, whether or not one existed; stored ids stay unique |

## Left out

- **MongoDB repository and connection.** The MongoDB-backed repository, `connectDB` and the `connected` flag (src/db.js:7-57) are network I/O. The resolvers run against the in-memory repository instead, with MongoDB's query semantics modelled in `QueryEngine`.
- **Cryptography and signing.** `jwt.verify`, `jwt.sign`, `signJWT`, `bcrypt.hash` and `bcrypt.compare` are function parameters. The secret, the expiry and the salt are not modelled.
- AuthMiddleware.AgreesWithAuthContext: the two paths agree only when `JWT_SECRET` is set. `authContext` verifies with `process.env.JWT_SECRET` (src/auth/jwt.js:8), while `getUser` falls back to a built-in secret (src/middleware/auth.js:8), the same one `login` signs with (src/schema/resolvers.js:68). With `JWT_SECRET` unset, `authContext` rejects every token but `getUser` accepts those `login` issues. The lemma passes one verifier to both paths, so it covers only the case where the secret is set.
- **Generated ids.** `Date.now() + Math.random()` ids are passed in as `freshId`/`freshIds`. A new MongoDB `_id` in `addEmployee` is passed in as `freshId` too, and `AddEmployee` requires that no stored record has it already.
- **`$regex` semantics.** The name filter is a literal, ASCII case-insensitive substring test. Regular-expression metacharacters and Unicode case folding are not modelled.
- **Ordering of equal sort keys.** MongoDB promises no order among records with equal sort keys. The model fixes one order; only `SortCorrect`'s sortedness and permutation are claimed for MongoDB.
- QueryEngine.AllPagesCoverAll: holds for one fixed order of the sorted result. Each page is a separate `find().sort().skip().limit()` request (src/schema/resolvers.js:36-39), and MongoDB may order equal keys differently on each. For the program it therefore holds only when the sort keys of the listed records are pairwise distinct. Ties are common: the default key is `date`, and `role` has two values. The same applies to QueryEngine.PagesUpToIsPrefix.
- **Sort keys not modelled.** Sorting on `subjects` (array keys), on `flagged`, or on a field that is not stored reads the key as missing.
- **Absent fields.** An absent `class`, `avatar` or payload `id` is held as "".
- **Non-string claims.** Numeric claims such as `iat` and `exp` are held as text.
- **Update values.** An update key explicitly set to `null` is not modelled; `Some` means "sent with a value".
- **Numbers.** `attendance` is a `real` and is only compared. NaN, floating-point rounding and the 32-bit `Int` range of GraphQL are not modelled.
- **Pagination preconditions.** `EmployeesQuery` requires a page and a page size of at least 1. With `page` or `pageSize` at 0 or below, MongoDB's `limit(0)` means "no limit" and the page count divides by zero. This is left out.
- Resolvers.EmployeesQuery: a missing `page` or `pageSize` (`None`) stands only for an omitted argument, which the defaults 1 and 10 replace (src/schema/resolvers.js:8). An explicit `null` gets no default and acts as 0 in the skip and the page count (src/schema/resolvers.js:35, 38). That is the degenerate case above and is left out.
- **Reference aliasing.** In memory, `findById` and `findByEmail` return the stored object itself, by reference (src/db.js:66, 69). `findAll`, `create` and `updateById` return shallow copies (src/db.js:63, 75, 81), so a returned record's `subjects` array is still the stored array. Nothing in the core mutates a returned record. Here records are values, so neither kind of sharing is modelled.
- **Runtime concerns.** DataLoader batching and caching, `async` scheduling, and MongoDB's cast and validation errors are not modelled. Neither are the `console.log` calls in `login`.
- Db.Repository.InsertMany: MongoDB's unordered `insertMany` with partial success is not modelled. The in-memory version never fails.
- Resolvers.AddEmployee: MongoDB's duplicate-email index error is not modelled. The email index is declared in the MongoDB schema, not checked by code.
- Resolvers.BuildQuery: a non-admin payload without an `id` claim sets `query._id` to `undefined` (src/schema/resolvers.js:15). The model reads that condition as matching no record, so such a caller lists nothing. MongoDB drivers may instead drop an `undefined` condition, and that caller would then list every record. Tokens issued by `login` always carry `id` (`IssuedClaims`), so only foreign tokens are affected.
- Resolvers.AddEmployee: the schema defaults of `save` are not applied: `role` defaults to `'employee'` and `date` to the current time (src/models/Employee.js:9,13). An absent `role` or `date` stays as the payload gives it. Strict mode's dropping of `flagged` is modelled.
- Resolvers.UpdateEmployee: strict mode's dropping of keys without a schema path is modelled for `flagged`, the only such key an update can carry. Schema validation and type casting of the update are not modelled.
