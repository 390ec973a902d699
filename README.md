# Per-user to-do store

A Dafny model of the to-do backend in `main.py`: users register and log
in, and a session records the logged-in username. Each user then lists,
adds, updates and deletes their own tasks. The model is a state machine,
the class `Handlers.TodoApp`. It has four parts:

- the `users` table, a sequence of rows `(id, username, hashedPassword)` in insertion order;
- the `tasks` table, a map from id to `(id, content, completed, ownerId)`;
- the counter that gives the next task its id;
- the client's session, `Option<string>`, standing for `request.session["username"]`.

Each route handler is a method on that state. Its `ensures` state the reply
and the whole new state. `get_tasks` and `get_current_user` only read the
state, so they are functions (`TodoApp.GetTasks`, `Queries.CurrentUser`).
The list order, the ownership filter, credential checking and name
uniqueness are proved as lemmas in module `Queries`.

Password hashing (`pwd_context.hash` / `verify`) is the constructor
parameter `hash: string -> string`. The model places no constraint on it.
`verify(pw, h)` is modelled as `hash(pw) == h` (`Queries.Verify`).

Files:

- `wrappers.dfy`: `Option`, `Result` and `Outcome`.
- `schema.dfy`: the two row types, the partial-update body, the five HTTP errors with their status codes and detail texts, and the partial-update function.
- `queries.dfy`: user lookup, credential check, session resolution, owned-task lookup, and the `get_tasks` filter and two-key sort, with their lemmas.
- `handlers.dfy`: the store invariant and the class with one method per route.
- `scenarios.dfy`: client request sequences proved from the handlers' contracts alone. One of them is the register, login, create, complete, delete walk-through.

Points of the code's behaviour worth noting:

- A session naming a user who is not in the table yields 404 "User not found" (main.py:72-73).
- The session check is `not username`, so an empty session username yields 401 "Not authenticated" (main.py:69).
- No foreign-key cascade is declared and no route deletes users (main.py:31, 39-40), so user deletion has no behaviour to model.

## Model

| member | source | states |
|---|---|---|
| `Schema.ResponseIdentifiesFailure` | main.py:70-160 | Two errors give the same status code and detail exactly when they are the same error, so equal `Failure` values mean identical HTTP responses. |
| `Schema.ApplyUpdate` | main.py:146-149 | The partial update: each field present in the body replaces the stored one, each absent field keeps its value, and id and owner never change. |
| `Schema.EmptyUpdateIsIdentity` | main.py:52-54 | An update body with neither field leaves the task unchanged. |
| `Schema.ApplyUpdateIdempotent` | main.py:146-149 | Applying the same update twice gives the same task as applying it once. |
| `Queries.FindUser` | main.py:91 | The lookup by name is empty exactly when no row holds the name. Otherwise it is the first row holding it. |
| `Queries.NamedCountUnique` | main.py:29 | In a table with unique names, a name is held by exactly one row if the lookup finds it, and by none otherwise. |
| `Queries.AppendFreshName` | main.py:91-95 | Appending a row under a name not yet held keeps the names unique, and the lookup then finds the new row. |
| `Queries.Authenticate` | main.py:103-105 | The credential check succeeds exactly when some row has the name and its stored hash verifies the password. An unknown name and a wrong password give the same `None`. |
| `Queries.LoginResolves` | main.py:68-74 | After credentials pass, a session holding that name resolves to that user. An empty name resolves to 401. |
| `Queries.CurrentUser` | main.py:67-74 | No session username or an empty one: 401 "Not authenticated". A name held by no row: 404 "User not found". Otherwise: the row with that name. |
| `Queries.OwnedTask` | main.py:142 | Finds a task exactly when some stored row has `id` equal to the requested id and `owner_id` equal to the caller. What it returns is that row, the one stored under that id. |
| `Queries.ForeignTaskLooksMissing` | main.py:142-144 | A task owned by someone else looks up exactly as if it were absent from the table. |
| `Queries.OwnedRows` | main.py:120 | The filter: exactly the owner's tasks below the scan bound, in strictly ascending id order. |
| `Queries.Insert` | main.py:120 | Inserting into an ordered list yields an ordered list whose multiset is the old one plus the element. |
| `Queries.SortTasks` | main.py:120 | Sorting yields a list in (completed ascending, id descending) order that is a permutation of the input. |
| `Queries.ListTasks` | main.py:120 | The list holds exactly the owner's stored tasks, with no two sharing an id, incomplete before complete, and newer id first within each group. |
| `Queries.NewestIncompleteHeadsList` | main.py:120 | An incomplete task holding the owner's largest id, such as one just added, is the first element of the list. |
| `Queries.ListOrderDetermines` | main.py:120 | Two lists in that order with the same elements are equal, so the order and the ownership filter fix the response. |
| `Queries.ListTasksIsolated` | main.py:120 | A user's list depends only on that user's tasks: removing every other user's task from the table leaves it unchanged. |
| `Handlers.TodoApp.constructor` | main.py:19-43 | A fresh store: empty tables, the counter at 1, no session, and the invariant holds. |
| `Handlers.TodoApp.Register` | main.py:89-97 | A taken name fails with 400 "Username already taken" and the table is unchanged. Otherwise exactly one row `(n+1, name, hash(password))` is appended. Either way exactly one row then holds the name. Tasks and session are not touched. |
| `Handlers.TodoApp.Login` | main.py:101-107 | Success exactly when a row has the name and its hash verifies the password. Every failure is the same 401 and leaves the session unchanged. Success sets the session to the name. The tables are not touched. |
| `Handlers.TodoApp.Logout` | main.py:111-114 | The session is empty afterwards, whatever it held. Nothing else changes. |
| `Handlers.TodoApp.GetTasks` | main.py:118-121 | The authentication error, or exactly the caller's tasks, each once, incomplete first and newest first within each group. |
| `Handlers.TodoApp.AddTask` | main.py:125-131 | After authentication: one new task with the given content, not completed, owned by the caller, under an id no task held. Every other task is unchanged. |
| `Handlers.TodoApp.UpdateTask` | main.py:135-152 | After authentication: an absent or foreign id gives 404 "Task not found" and nothing changes. Otherwise only the fields present in the body are overwritten and no other task changes. |
| `Handlers.TodoApp.DeleteTask` | main.py:156-163 | After authentication: an absent or foreign id gives 404 and nothing changes. Otherwise exactly that task is removed. |
| `Scenarios.LogoutTwice` | main.py:111-114 | Two logouts leave the same state as one: an empty session and unchanged tables. |
| `Scenarios.DeleteTwice` | main.py:156-163 | After a successful delete, the same delete again is 404 and the id is gone. A failed delete repeats the same failure. |
| `Scenarios.EndToEnd` | main.py:89-163 | The walk-through: register alice, log in, add "buy milk", list it as incomplete, mark it completed, list it as completed, delete it, list nothing. |
| `Scenarios.AliceAddsMilk` | main.py:89-131 | From a fresh store, two registrations, alice's login, her new task and her logout leave exactly the rows `(1, alice, hash(pw1))` and `(2, bob, hash(pw2))`, the one task `(1, buy milk, false, 1)` and no session. |
| `Scenarios.ForeignTaskHidden` | main.py:135-152 | Bob's update of alice's task is 404. Her task keeps its content and Bob's list is empty. |

## Left out

- FastAPI routing, `Form(...)` and pydantic body parsing, and the 422 responses: framework plumbing. In particular FastAPI rejects an empty form field, so an empty username never reaches `register` or `login`. The model accepts one, and `CurrentUser` then treats the empty session name as no session.
- The success message bodies (`"User registered successfully"` and the like): fixed strings not modelled. Replies are `Pass` or the returned task or list.
- SQLAlchemy engine, sessions, `commit`/`refresh`/`close`, `create_all`: the tables are Dafny values. Each handler is one atomic step.
- Handlers.TodoApp.AddTask: task ids come from a counter that never reuses an id. SQLite gives a new row the largest existing id plus one, so it reuses the id of a deleted newest task. Both schemes give an id that no current task holds; the counter step in the contract belongs to the model only.
- 64-bit storage integers: a path id outside SQLite's integer range makes the store raise rather than answer 404. The model's ids are unbounded.
- bcrypt through passlib: the hash is an unconstrained function, so salting, the 72-byte password limit and its rejection of NUL characters are not modelled.
- Cookie signing and the secret key of `SessionMiddleware`: the session is one optional username for one client. Several clients with separate cookies are not modelled.
- Session expiry: the signed cookie carries a timestamp and `SessionMiddleware` drops it after its `max_age` (14 days by default), after which requests get 401. The model's session never expires.
- Handlers.TodoApp.UpdateTask: returns the updated task. The ORM instance that `update_task` returns is read after `db.commit()`, which by default marks it expired; how the response encoder serialises that instance is not modelled.
- ORM relationships and user deletion: no route removes users and no cascade is declared.
- `async` handlers, `uvicorn.run` and concurrent requests. In particular, two concurrent registrations of one name are not modelled; the store's unique constraint would reject the second with a server error.
