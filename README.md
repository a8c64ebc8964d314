# To-do service: in-memory store, guards and route handlers

A Dafny model of a small multi-user to-do HTTP service (`src/index.js`). Users
register under a unique username, may upgrade once to the "pro" plan, and keep
an ordered list of to-dos. A free-tier user may not create a to-do once they
already hold ten. The HTTP layer is removed. What is left is one in-memory user
collection, four guards that resolve or refuse a request, and eight handlers
that update the resolved user or to-do in place.

Files:

- `idformat.dfy`, module `IdFormat`: the id pattern
  `^[0-9a-f]{8}-[0-9a-f]{4}-[0-5][0-9a-f]{3}-[089ab][0-9a-f]{3}-[0-9a-f]{12}$`
  with the `i` flag. It is written as a sequence of character classes with an
  anchored matcher. Lemmas give its positional reading, its case-insensitivity,
  and which ids it accepts: every generated v4 id, the all-zero id, but not `"abc"`.
- `todos.dfy`, module `Todos`:
  - the `User` and `Todo` records and the `Response` datatype (`Ok`,
    `BadRequest`, `Forbidden`, `NotFound`, each error with the source's message);
  - the lookups (`find`, `some`, `indexOf`) and the four guards as functions;
  - each in-place update a handler makes, as a function on the user collection
    that changes only the element the guards found;
  - the store invariant, and the relation `Advances` that every request keeps.
- `properties.dfy`, module `TodoProperties`: each update keeps the invariant and
  only moves the store forward. Also, what successive requests see: a second pro
  upgrade is refused, mark-done is idempotent, an update shows up in the list,
  a second delete finds nothing, and a new to-do can be reached by its id.
- `store.dfy`, module `TodoStore`: class `Store` owns the `users` collection. It
  has one method per route handler. Each method runs its guard chain and stops
  at the first failure. Its postcondition gives the response and the whole new
  collection in terms of the guards and the update functions.

The store invariant (`Todos.Invariant`) has four parts:

- usernames are unique;
- user ids are unique;
- to-do ids are unique within each user;
- no free-tier user holds more than 10 to-dos.

`Todos.Advances` says what a single request may change:

- users are only added;
- a user's id and username never change;
- `pro` never goes from true to false;
- a done to-do stays done while its user still holds it.

Behaviour of the code worth noting:

- The variant class at position 19 is `[089ab]`. So besides RFC 4122's 8, 9,
  a and b, `0` is admitted, and the all-zero id passes.
- `DELETE /todos/:id` runs the username guard before the id guard. An unknown
  username gives "This username does not exist.", even for a malformed id. A
  malformed id under a known username gives 400 "This id is invalid.".
- The quota message starts with a space, as the code writes it.

## Model

| member | source | states |
|---|---|---|
| `IdFormat.IsValidId` | src/index.js:41-44 | the id test is an anchored match of the 8-4-4-4-12 pattern; only 36-character strings pass, so `"abc"` and every other length is refused |
| `IdFormat.ValidIdShape` | src/index.js:41 | an id passes exactly when it has 36 characters, hyphens at 8, 13, 18 and 23, a digit 0-5 at 14, one of 0/8/9/a/b in either case at 19, and hex digits in either case elsewhere |
| `IdFormat.CaseInsensitive` | src/index.js:41 | lower-casing an id never changes whether it passes (the `i` flag) |
| `IdFormat.GeneratedIdIsValid` | src/index.js:41-44 | every lower-case v4 identifier (version 4, variant 8-b) passes the id check |
| `IdFormat.NilIdIsValid` | src/index.js:41 | because the variant class includes `0`, the all-zero identifier `00000000-0000-0000-0000-000000000000` passes |
| `Todos.FirstIndex` | src/index.js:15 | `find` stops at the first element satisfying the predicate, and finds nothing only if no element satisfies it |
| `Todos.IndexOf` | src/index.js:156 | `indexOf` gives the first position holding the value, or -1 exactly when the value is absent |
| `Todos.UserWithUsername` | src/index.js:15 | the `find` by username gives the first user holding the username, and nothing only when no user holds it (also the lookup at line 43) |
| `Todos.UserWithId` | src/index.js:63 | the `find` by id gives the first user with the id, and nothing only when no user has it |
| `Todos.TodoWithId` | src/index.js:49 | the `find` over a user's to-dos gives the first to-do with the id, and nothing only when none has it |
| `Todos.UsernameTaken` | src/index.js:75 | `some` over usernames holds exactly when the `find` by username succeeds |
| `Todos.NewUser` | src/index.js:81-87 | the new user carries the given id, name and username, is not pro, has no to-dos, and so is within the quota |
| `Todos.NewTodo` | src/index.js:122-128 | the new to-do carries the given id, title and deadline, is not done, and was created at the given time |
| `Todos.ChecksExistsUserAccount` | src/index.js:12-22 | succeeds exactly when some user holds the username and returns the first such user; otherwise NotFound "This username does not exist." |
| `Todos.ChecksCreateTodosUserAvailability` | src/index.js:24-35 | refuses with Forbidden exactly when the user is not pro and already holds 10 or more to-dos; otherwise passes |
| `Todos.ChecksTodoExists` | src/index.js:37-58 | fixed precedence: a malformed id gives BadRequest whatever the store holds; then an unknown username gives NotFound "This user does not exist."; then an id the user's first match does not hold gives NotFound "This task does not exist."; on success, the first user with the username and their first to-do with the id |
| `Todos.FindUserById` | src/index.js:60-70 | succeeds exactly when some user has the id and returns the first such user; otherwise NotFound "User not found" |
| `Todos.WithPro` | src/index.js:107 | sets `pro` on the found user only; that user's other fields and all other users are unchanged |
| `Todos.WithTodoAppended` | src/index.js:130 | the found user's list grows by exactly the new to-do at its end; the account fields and other users are unchanged |
| `Todos.WithTodoEdited` | src/index.js:139-140 | only the title and deadline of the found to-do change; its id, done flag and creation date, the other to-dos and the other users are unchanged |
| `Todos.WithTodoDone` | src/index.js:148 | only the found to-do's done flag changes, to true |
| `Todos.WithoutTodo` | src/index.js:162 | removes exactly the found to-do; the list shrinks by one, the rest keep their relative order, and the multiset loses exactly that element |
| `TodoProperties.CreateUserKeepsInvariant` | src/index.js:72-92 | appending a new user whose username and id are not taken keeps usernames unique and the rest of the invariant, and leaves earlier users unchanged |
| `TodoProperties.UpgradeKeepsInvariant` | src/index.js:100-110 | the pro upgrade keeps the invariant and only moves the store forward |
| `TodoProperties.AppendKeepsInvariant` | src/index.js:118-133 | a to-do appended after the quota guard passed keeps every free-tier user at 10 to-dos or fewer, and keeps to-do ids unique |
| `TodoProperties.EditKeepsInvariant` | src/index.js:135-143 | editing title and deadline keeps the invariant, and no done flag is lost |
| `TodoProperties.DoneKeepsInvariant` | src/index.js:145-151 | marking done keeps the invariant and only moves the store forward |
| `TodoProperties.RemoveKeepsInvariant` | src/index.js:153-165 | removing a to-do keeps the invariant, and every surviving done to-do stays done |
| `TodoProperties.UpgradeTwiceRefused` | src/index.js:100-110 | after an upgrade the same id resolves to the same user, now pro, so a second upgrade is refused |
| `TodoProperties.MarkDoneIdempotent` | src/index.js:145-151 | after marking done, the same request resolves the same to-do, and a second mark leaves the store as the first did |
| `TodoProperties.UpdateVisibleInList` | src/index.js:135-143 | after an update, listing under the same username shows the to-do with the new title and deadline and its old id, done flag and creation date |
| `TodoProperties.DeleteFindsResolvedTodo` | src/index.js:153-160 | both delete guards resolve the same user, and `indexOf` finds the resolved to-do at its found index, so the "Todo not found" branch is never taken |
| `TodoProperties.DeleteTwiceNotFound` | src/index.js:153-165 | once a to-do is deleted, the same request gets NotFound "This task does not exist." |
| `TodoProperties.CreatedTodoIsReachable` | src/index.js:118-133 | a to-do created with a generated id is found right away by the id guard, at the end of its user's list |
| `TodoProperties.QuotaBoundary` | src/index.js:27-32 | a free-tier user with exactly 10 to-dos is refused, one with fewer is not, and a pro user never is |
| `TodoStore.Store.constructor` | src/index.js:10 | the store starts with no users, which satisfies the invariant |
| `TodoStore.Store.CreateUser` | src/index.js:72-92 | a taken username gives BadRequest "Username already exists" and leaves the store unchanged; otherwise exactly one new user is appended with `pro` false and no to-dos |
| `TodoStore.Store.GetUser` | src/index.js:94-98 | returns the first user with the id, or NotFound "User not found" exactly when there is none |
| `TodoStore.Store.UpgradeToPro` | src/index.js:100-110 | an unknown id gives NotFound; an already-pro user gives BadRequest and no change; otherwise only that user's `pro` becomes true |
| `TodoStore.Store.ListTodos` | src/index.js:112-116 | returns the to-dos of the first user with the username, or NotFound exactly when there is none |
| `TodoStore.Store.CreateTodo` | src/index.js:118-133 | an unknown username gives NotFound; a free-tier user with 10 or more to-dos gives Forbidden and no change; otherwise a new not-done to-do is appended to that user's list |
| `TodoStore.Store.UpdateTodo` | src/index.js:135-143 | any id-guard failure leaves the store unchanged; otherwise only title and deadline of the resolved to-do change, and the updated to-do is returned |
| `TodoStore.Store.MarkTodoDone` | src/index.js:145-151 | any id-guard failure leaves the store unchanged; otherwise only the resolved to-do's done flag is set |
| `TodoStore.Store.DeleteTodo` | src/index.js:153-165 | the username guard runs first, then the id guard, and either failure leaves the store unchanged; otherwise exactly the resolved to-do is removed from its user's list |

## Left out

- HTTP: Express, routing, JSON body parsing, CORS and serialisation are not modelled. Status codes survive only as the `Response` constructors. 200 and 201 are both `Ok`, and the empty 204 body is `Ok(())`.
- Identifier generation (`uuidv4`) is a random foreign call. Each creating handler takes the new id as a parameter instead. Its precondition says the id is a lower-case v4 identifier that is not yet in use.
- Dates: `new Date(deadline)` and `new Date()` are passed in as already-converted `Instant` values. Date parsing, including invalid dates, and the clock are not modelled.
- Headers, path parameters and body fields are plain strings. So the case of a missing (`undefined`) username, name or title is not modelled.
- The unused `validate` import and `module.exports` are not modelled.
- Object identity: the guards hand the handler a reference to the stored record. The model uses the record's index in the collection instead, and updates the element at that index. No other reference to a stored record exists, because responses are serialised copies. `indexOf`, which compares by reference, is modelled as comparison by value. `TodoProperties.DeleteFindsResolvedTodo` shows that both give the same index here.
- Concurrency: none exists. Each request runs to completion.
