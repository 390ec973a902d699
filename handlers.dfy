/** The per-user to-do store and its HTTP handlers as a state machine: the two
    tables, the task id counter and the client's session, changed in place by
    `register`, `login`, `logout`, `add_task`, `update_task` and `delete_task`,
    and read by `get_tasks`. */
module Handlers {
  import opened Wrappers
  import opened Schema
  import opened Queries

  /** What the store guarantees between requests: unique usernames, user ids
      assigned 1, 2, 3, ... in insertion order (users are never deleted), tasks
      keyed by their own id, every task id below the counter, and every task
      owned by an existing user. */
  ghost predicate StoreValid(users: seq<User>, tasks: map<int, Task>, nextTaskId: nat) {
    && UniqueNames(users)
    && (forall i | 0 <= i < |users| :: users[i].id == i + 1)
    && KeyedById(tasks)
    && 1 <= nextTaskId
    && (forall id | id in tasks :: 1 <= id < nextTaskId)
    && (forall id | id in tasks :: 1 <= tasks[id].ownerId <= |users|)
  }

  class TodoApp {
    /** `pwd_context.hash`, left uninterpreted; `verify(pw, h)` is `hash(pw) == h`. */
    const hash: string -> string
    /** The `users` table, in insertion order. */
    var users: seq<User>
    /** The `tasks` table, keyed by id. */
    var tasks: map<int, Task>
    /** The id the store gives the next task. */
    var nextTaskId: nat
    /** `request.session["username"]`, or `None` when the key is absent. */
    var session: Option<string>

    ghost predicate Valid()
      reads this
    {
      StoreValid(users, tasks, nextTaskId)
    }

    /** An empty database and a client without a session. */
    constructor (hash: string -> string)
      ensures this.hash == hash
      ensures users == [] && tasks == map[] && nextTaskId == 1 && session == None
      ensures Valid()
    {
      this.hash := hash;
      users, tasks, nextTaskId, session := [], map[], 1, None;
    }

    /** `POST /register`: a taken name is refused with 400 and the table is left
        as it is; otherwise one row is appended holding the name and the hash of
        the password. Either way the name is then held by exactly one row. */
    method Register(username: string, password: string) returns (r: Outcome<Failure>)
      requires Valid()
      modifies this`users
      ensures Valid()
      ensures r == Pass || r == Fail(UsernameTaken)
      ensures r.Fail? <==> exists i | 0 <= i < |old(users)| :: old(users)[i].username == username
      ensures r.Fail? ==> users == old(users)
      ensures r.Pass? ==> users == old(users) + [User(|old(users)| + 1, username, hash(password))]
      ensures NamedCount(users, username) == 1
    {
      var existing := FindUser(users, username);
      if existing.Some? {
        r := Fail(UsernameTaken);
      } else {
        var hashed := hash(password);
        users := users + [User(|users| + 1, username, hashed)];
        r := Pass;
        assert FindUser(users, username).Some? by {
          assert users[|users| - 1].username == username;
        }
      }
      NamedCountUnique(users, username);
    }

    /** `POST /login`: when the name is unknown or the password does not verify
        the reply is the same 401 and the session is untouched; otherwise the
        session holds the name. The tables never change. */
    method Login(username: string, password: string) returns (r: Outcome<Failure>)
      requires Valid()
      modifies this`session
      ensures Valid()
      ensures r == Pass || r == Fail(BadCredentials)
      ensures r.Pass? <==> exists i | 0 <= i < |users| ::
                users[i].username == username && Verify(hash, password, users[i].hashedPassword)
      ensures session == if r.Pass? then Some(username) else old(session)
    {
      var user := Authenticate(users, hash, username, password);
      if user.None? {
        r := Fail(BadCredentials);
      } else {
        session := Some(username);
        assert users == old(users);
        r := Pass;
      }
    }

    /** `GET /logout`: the session is cleared whatever it held; the tables never change. */
    method Logout()
      modifies this`session
      ensures old(Valid()) ==> Valid()
      ensures session == None
    {
      session := None;
    }

    /** `GET /tasks`: the caller's authentication error, or exactly the
        caller's tasks, each once, incomplete before complete and newest first
        within each group. */
    function GetTasks(): (r: Result<seq<Task>, Failure>)
      reads this
      requires Valid()
      ensures CurrentUser(users, session).Err? ==> r == Err(CurrentUser(users, session).error)
      ensures CurrentUser(users, session).Ok? ==> r.Ok?
      ensures r.Ok? ==> (CurrentUser(users, session).Ok? &&
                var owner := CurrentUser(users, session).value.id;
                forall t :: t in r.value <==> t.id in tasks && tasks[t.id] == t && t.ownerId == owner)
      ensures r.Ok? ==> InListOrder(r.value) && DistinctIds(r.value)
    {
      match CurrentUser(users, session)
      case Err(e) => Err(e)
      case Ok(user) => Ok(ListTasks(tasks, user.id, nextTaskId))
    }

    /** `POST /tasks`: after the authentication check, one new incomplete task
        with the given content, owned by the caller, under an id no task holds;
        every other task is unchanged. */
    method AddTask(content: string) returns (r: Result<Task, Failure>)
      requires Valid()
      modifies this`tasks, this`nextTaskId
      ensures Valid()
      ensures var cu := CurrentUser(users, session);
        cu.Err? ==> r == Err(cu.error) && tasks == old(tasks) && nextTaskId == old(nextTaskId)
      ensures var cu := CurrentUser(users, session);
        cu.Ok? ==> && r.Ok?
                   && r.value.content == content && !r.value.completed
                   && r.value.ownerId == cu.value.id
                   && r.value.id !in old(tasks)
                   && tasks == old(tasks)[r.value.id := r.value]
                   && r.value.id == old(nextTaskId) && nextTaskId == old(nextTaskId) + 1
    {
      var cu := CurrentUser(users, session);
      if cu.Err? {
        r := Err(cu.error);
        return;
      }
      var task := Task(nextTaskId, content, false, cu.value.id);
      tasks := tasks[nextTaskId := task];
      nextTaskId := nextTaskId + 1;
      r := Ok(task);
    }

    /** `PUT /tasks/{id}`: after the authentication check, a task that is
        missing or owned by someone else gives the same 404 and nothing
        changes; otherwise only the fields present in `update` are
        overwritten and no other task changes. */
    method UpdateTask(taskId: int, update: TaskUpdate) returns (r: Result<Task, Failure>)
      requires Valid()
      modifies this`tasks
      ensures Valid()
      ensures var cu := CurrentUser(users, session);
        cu.Err? ==> r == Err(cu.error) && tasks == old(tasks)
      ensures var cu := CurrentUser(users, session);
        cu.Ok? && OwnedTask(old(tasks), taskId, cu.value.id).None? ==>
          r == Err(TaskNotFound) && tasks == old(tasks)
      ensures var cu := CurrentUser(users, session);
        cu.Ok? && OwnedTask(old(tasks), taskId, cu.value.id).Some? ==>
          && r == Ok(ApplyUpdate(old(tasks)[taskId], update))
          && tasks == old(tasks)[taskId := r.value]
    {
      var cu := CurrentUser(users, session);
      if cu.Err? {
        r := Err(cu.error);
        return;
      }
      var found := OwnedTask(tasks, taskId, cu.value.id);
      if found.None? {
        r := Err(TaskNotFound);
        return;
      }
      var task := found.value;
      if update.content.Some? {
        task := task.(content := update.content.value);
      }
      if update.completed.Some? {
        task := task.(completed := update.completed.value);
      }
      tasks := tasks[taskId := task];
      r := Ok(task);
    }

    /** `DELETE /tasks/{id}`: after the authentication check, a task that is
        missing or owned by someone else gives the same 404 and nothing
        changes; otherwise exactly that task is removed. */
    method DeleteTask(taskId: int) returns (r: Outcome<Failure>)
      requires Valid()
      modifies this`tasks
      ensures Valid()
      ensures var cu := CurrentUser(users, session);
        cu.Err? ==> r == Fail(cu.error) && tasks == old(tasks)
      ensures var cu := CurrentUser(users, session);
        cu.Ok? && OwnedTask(old(tasks), taskId, cu.value.id).None? ==>
          r == Fail(TaskNotFound) && tasks == old(tasks)
      ensures var cu := CurrentUser(users, session);
        cu.Ok? && OwnedTask(old(tasks), taskId, cu.value.id).Some? ==>
          r == Pass && tasks == old(tasks) - {taskId}
    {
      var cu := CurrentUser(users, session);
      if cu.Err? {
        r := Fail(cu.error);
        return;
      }
      var found := OwnedTask(tasks, taskId, cu.value.id);
      if found.None? {
        r := Fail(TaskNotFound);
        return;
      }
      tasks := tasks - {taskId};
      r := Pass;
    }
  }
}
