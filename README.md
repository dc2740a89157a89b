# Todo API core, modelled in Dafny

This project models the core of a small multi-user to-do API:

- the per-user in-memory todo store (`src/models/Todo.js`): a map from user id to that
  user's array of todos, updated in place;
- the append-only user directory (`src/models/User.js`);
- the request handlers built on them: the todo handlers, register, login and current user;
- the bearer-token gate (`src/middleware/auth.js`).

Both stores are Dafny classes. `TodoStore.todos` is a `map<int, seq<Todo>>` and
`UserStore.users` is a `seq<User>`; their methods reassign these fields.
The array scans (`find`, `findIndex`, `filter`, `map`) are methods with loops.
Each loop is proved against a specification function: the scans `find` and `findIndex`
against `IndexOf`, `IndexOfEmail` and `IndexOfId` (all instances of one first-match function,
`Sequences.FirstIndex`), `filter` against the recursive `Without`, and `getAllUsers`'s `map`
element by element against `Redact`. The source's promises are proved about those functions.
The handlers are methods that take the stores by handle. They answer with a `Reply`: a
success with status, message and data, or an `HttpError` with a status and message.

Password hashing and token signing are library calls. They enter as parameters:
- a `Hasher` (hash with a salt, compare) with the ghost assumption `Sound`: a password
  matches its own hash;
- a `TokenService` (sign at a time, verify at a time, time-to-live) with the ghost assumption
  `Honest`: a signed token is well formed, verifies to its own claims until it expires, and
  reports `Expired` from then on.

The clock and the random salt are also parameters.

Behaviours of the code that the model keeps on purpose:
- A todo's id is the length of the owner's partition plus one. After a delete, a later
  create can reuse an id that is still present, and a lookup of that id then finds the
  older todo, not the new one (`TodoModel.IdReuseAfterDelete`).
  `getTodoById` and `updateTodo` then act on the first match (`TodoModel.IndexOf`), and
  `deleteTodo` removes every match (`TodoModel.Without`).
- `findUserByEmail` and `findUserById` return the stored account, password hash included.
  Only `createUser`, `getAllUsers` and the two auth answers leave the password out.
- The gate takes the second piece of `header.split(' ')` as the token and never checks that
  the first piece is `Bearer`, so `Basic <token>` passes too (`AuthMiddleware.TokenAfterAnyScheme`).
  This is looser than section 2.1 of RFC 6750, which requires the `Bearer` scheme.
- `createUser` does not check that the email is unique. `register` checks it before
  inserting, and that check keeps emails unique up to case.

## Model

| member | source | states |
|---|---|---|
| Sequences.FirstIndex | src/models/Todo.js:67 | the first position whose element satisfies the test, or -1 exactly when none does |
| TodoModel.Partition | src/models/Todo.js:45 | the user's array when the user has one, and the empty array otherwise |
| TodoModel.IndexOf | src/models/Todo.js:67 | `findIndex` by id: -1 when no todo has the id; otherwise a position holding it with no earlier position holding it |
| TodoModel.Lookup | src/models/Todo.js:55 | `find` by id: nothing iff no todo in the partition has the id; otherwise the todo at the first position holding the id |
| TodoModel.Without | src/models/Todo.js:90 | the filtered partition is no longer than before and no todo in it holds the id |
| TodoModel.WithoutSubset | src/models/Todo.js:90 | every todo the filter keeps was in the old partition |
| TodoModel.WithoutConcat | src/models/Todo.js:90 | the filter distributes over concatenation, so the kept todos keep their relative order |
| TodoModel.WithoutSingle | src/models/Todo.js:90 | a one-todo partition is dropped iff its id matches |
| TodoModel.WithoutShrinks | src/models/Todo.js:89-92 | the filter shortens the partition iff some todo has the id, and a filter that does not shorten it leaves it unchanged |
| TodoModel.Merge | src/models/Todo.js:71-75 | in the merged todo, present update fields overwrite and absent ones keep their value; id, owner and createdAt are kept and updatedAt is the new time |
| TodoModel.EmptyUpdateTouchesOnlyUpdatedAt | src/models/Todo.js:71-75 | merging an update with no fields changes only updatedAt |
| TodoModel.WithoutKeeps | src/models/Todo.js:90 | a todo whose id differs from the deleted one is still in the filtered partition |
| TodoModel.WithoutOneMatch | src/models/Todo.js:89-92 | when exactly one todo holds the id, the filter removes exactly one todo |
| TodoModel.LookupAfterAppend | src/models/Todo.js:55 | when a todo is the only one holding an id, appending another todo with that id leaves the lookup of the id returning the earlier one |
| TodoModel.IdReuseAfterDelete | src/models/Todo.js:21-31 | in a partition holding ids 1..n, deleting any id k < n leaves n - 1 todos, so the next create gets id n while the todo already holding id n is still there, and a lookup of id n then returns that older todo |
| TodoModel.FindIndex | src/models/Todo.js:67 | the `findIndex` scan returns exactly `IndexOf` |
| TodoModel.FilterOut | src/models/Todo.js:90 | the `filter` pass returns exactly `Without` |
| TodoModel.TodoStore.constructor | src/models/Todo.js:8 | the store starts as the empty map |
| TodoModel.TodoStore.CreateTodo | src/models/Todo.js:13-33 | appends one todo to the owner's partition, creating it if missing. The todo has id = old length + 1, the owner, the title, the description or '' when absent, completed false and both times now. Other partitions are unchanged and every todo stays in its owner's partition |
| TodoModel.TodoStore.GetTodos | src/models/Todo.js:38 | returns the whole map |
| TodoModel.TodoStore.GetTodosByUserId | src/models/Todo.js:43-46 | the user's partition in insertion order, or empty when there is none |
| TodoModel.TodoStore.GetTodoById | src/models/Todo.js:51-56 | nothing when the partition is absent; otherwise the first todo with the id, or nothing |
| TodoModel.TodoStore.UpdateTodo | src/models/Todo.js:62-79 | nothing and no change when the partition or the id is absent; otherwise only the first match is replaced, in place, by its merge with the updates. That merge is returned and other partitions are unchanged |
| TodoModel.TodoStore.DeleteTodo | src/models/Todo.js:84-93 | false and no change when the partition is absent; otherwise the partition becomes its filter, and the result is true iff it got shorter |
| TodoModel.TodoStore.DeleteUserTodos | src/models/Todo.js:98-101 | removes exactly that user's key, so the user's partition reads as empty afterwards |
| UserModel.Redact | src/models/User.js:27-32 | the password-free view keeps exactly the id, name, email and creation time of the account |
| UserModel.RedactIgnoresPassword | src/models/User.js:53-58 | two accounts that differ only in their password hash have the same password-free view |
| UserModel.SameEmail | src/models/User.js:39 | two emails match iff they have the same length and agree character by character after lower-casing |
| UserModel.Lower | src/models/User.js:39 | lower-casing keeps the length and maps each character to its lower-case form, leaving no upper-case letter |
| UserModel.LowerIdempotent | src/models/User.js:39 | lower-casing twice equals lower-casing once |
| UserModel.IndexOfEmail | src/models/User.js:38-40 | -1 when no account's email matches case-insensitively; otherwise a matching position with no earlier match |
| UserModel.IndexOfId | src/models/User.js:45-47 | -1 when no account has the id; otherwise a position holding it with no earlier one |
| UserModel.IdLookupIsDirect | src/models/User.js:19 | with ids assigned as length + 1, the account with id k is at position k - 1, and ids outside 1..n are not found |
| UserModel.AppendFreshEmail | src/controllers/authController.js:20-26 | appending an account whose email is not yet taken keeps emails unique up to case, and lookups of any case variant then find the new account |
| UserModel.UserStore.constructor | src/models/User.js:10 | the directory starts empty |
| UserModel.UserStore.CreateUser | src/models/User.js:15-33 | appends exactly one account with id = old length + 1 and password = hash of the plaintext. Returns id, name, email and createdAt without the password. Ids stay 1..n |
| UserModel.UserStore.FindUserByEmail | src/models/User.js:38-40 | the first account whose lower-cased email equals the lower-cased argument, or nothing |
| UserModel.UserStore.FindUserById | src/models/User.js:45-47 | the first account with exactly that id, or nothing |
| UserModel.UserStore.GetAllUsers | src/models/User.js:52-59 | same length and order as the directory, each element the password-free view of the account at that position |
| TodoController.CreateTodo | src/controllers/todoController.js:13-29 | 201 with exactly the new todo: id = old partition length + 1, the caller as owner, the title, the description or "" when absent, completed false, and both timestamps the current time; it is appended to the caller's partition and no other partition changes |
| TodoController.GetAllTodos | src/controllers/todoController.js:35-48 | the caller's partition, with count equal to the length of the returned list |
| TodoController.GetTodoById | src/controllers/todoController.js:54-71 | 404 "Todo not found" iff the caller's partition has no todo with the id; otherwise 200 with the first match |
| TodoController.UpdateTodo | src/controllers/todoController.js:78-107 | 404 and no change when the todo is absent. Otherwise the update object holds exactly the body's defined fields, the first match is replaced by the merge and 200 returns it. Only the caller's partition changes |
| TodoController.DeleteTodo | src/controllers/todoController.js:113-134 | 404 and no change when the todo is absent; otherwise every match is removed, the partition got shorter, and the answer is 200 |
| AuthController.NewUser | src/models/User.js:18-24 | the account `createUser` builds keeps ids sequential, carries the body's name and email and the current time, and its stored hash matches the plaintext under a sound hasher |
| AuthController.Register | src/controllers/authController.js:15-46 | 409 and no new account when the email is taken up to case. Otherwise exactly one new account and 201 with its password-free view, plus a token for its id, email and name. Emails unique up to case stay unique |
| AuthController.Login | src/controllers/authController.js:52-90 | unknown email and wrong password both give the same 401 "Invalid credentials". Otherwise 200 with the stored account's id, name and email and a token for its id, email and name |
| AuthController.GetCurrentUser | src/controllers/authController.js:97-103 | 200 with exactly the claims the gate attached |
| AuthController.LoginAfterRegister | src/controllers/authController.js:57-66 | after a registration, the login lookup with any case variant of the email finds the new account, and the registered password matches its stored hash |
| AuthMiddleware.Split | src/middleware/auth.js:16 | `split(' ')` gives at least one piece and no piece contains a space |
| AuthMiddleware.JoinSplit | src/middleware/auth.js:16 | joining the pieces with single spaces gives the header back |
| AuthMiddleware.HeaderToken | src/middleware/auth.js:16-24 | the extracted token, when there is one, is non-empty and has no space |
| AuthMiddleware.TokenAfterAnyScheme | src/middleware/auth.js:16 | `<scheme> <token>` and `<scheme> <token> <more>` yield exactly the token, for any scheme word |
| AuthMiddleware.NoTokenShapes | src/middleware/auth.js:16-24 | a header with no space, one ending after the first space, or one with two spaces after the first word yields no token |
| AuthMiddleware.Guard | src/middleware/auth.js:13-47 | 401 "No token provided…" iff no token; 401 expiry message iff verification says expired; 403 iff it says invalid; passes iff it verifies, with the decoded claims |
| AuthMiddleware.IssuedTokenPasses | src/middleware/auth.js:20-40 | a token the service signed passes as `Bearer <token>` with its own claims (same id) until it expires, and gets the 401 expiry answer, never the 403, from then on |
| AuthMiddleware.VerifyToken | src/middleware/auth.js:13-47 | next is called iff the gate passes. On a pass `req.user` is set to the claims and nothing is sent; otherwise the rejection is sent and `req.user` is unchanged |
| Scenarios.DuplicateEmailByCase | src/controllers/authController.js:20-23 | registering any email and then its lower-cased spelling gives 201 and then 409, leaving one account |
| Scenarios.SignUpAndSignIn | src/controllers/authController.js:52-84 | register, log in with the lower-cased email, and pass the gate with the login token; the gate hands on the registered account's id |
| Scenarios.TodoLifecycle | src/controllers/todoController.js:13-134 | create gives 201 with id 1 and completed false, a patch of `completed` keeps the title, delete gives 200, and a later get gives 404 |
| Scenarios.CrossUserIsolation | src/controllers/todoController.js:13-134 | another user's list is empty, and their get, patch and delete of the owner's todo id all give 404, leaving the owner's list intact |
| Scenarios.RecreateAfterDelete | src/models/Todo.js:17-31 | deleting a user's only todo and creating another reuses id 1, and the lookup of id 1 then finds the new content |

## Left out

- Hashing (`src/utils/password.js`) is not computed. It is a `Hasher` parameter, assumed `Sound`. Salting, slowness and one-wayness are not modelled, so "the stored password is never the plaintext" holds only as far as the hash function guarantees it.
- Token signing and verification (`src/utils/jwt.js`, `jwt.verify`) are a `TokenService` parameter, assumed `Honest` where a lemma needs it. Signatures, the secret, tampering and the `JWT_EXPIRY` parsing (default "24h") are not modelled. `generateTokenPair` is unused by the service and not modelled.
- AuthMiddleware.Guard: the decoded `id` is already an integer, so `Number(decoded.id)` is the identity. A token whose `id` is a string or not numeric is not modelled.
- Number coercion of path parameters and user ids, including `NaN`, is left out; ids are integers.
- TodoModel.TodoStore.UpdateTodo: the update object carries only `title`, `description` and `completed`. The JavaScript model would spread any key, including `id` or `userId`; its one caller never passes those.
- TodoController.UpdateTodo: a body field that is `null` (not `undefined`) is not modelled; the model's fields are present or absent.
- TodoModel.TodoStore.GetTodoById: `null` (absent partition) and `undefined` (no match) are both "nothing" in the model, as both are falsy to every caller.
- TodoModel.TodoStore.GetTodos: the real function returns the live map, which a caller could mutate. The model returns its value, so aliasing is not captured.
- UserModel.Lower: lower-cases ASCII letters only. JavaScript's `toLowerCase` also handles non-ASCII letters.
- AuthController.Register: each request is one sequential step. The `await` on hashing between the duplicate check and the insert is where two concurrent registrations with one email could interleave; that interleaving is not modelled.
- Failures of the hash, sign or verify libraries that surface as 500 through the error handler are not modelled; neither is the error handler's formatting or logging.
- Input validation (`src/middleware/validation.js`: title 1-255 characters, description at most 1000, name at least 2, password at least 6, email trimmed and lower-cased) runs before the core. It is not modelled, so the model accepts any strings.
- Routing, CORS, body parsing, logging and the health endpoint (`src/server.js`, `src/routes/*.js`) are not part of this model.
- Timestamps are natural numbers passed in by the caller, not ISO strings read from the clock.
