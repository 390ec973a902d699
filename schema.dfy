/** The rows of the two tables, the partial-update body, and the HTTP errors. */
module Schema {
  import opened Wrappers

  /** A row of `users`: store-assigned id, unique username, password hash. */
  datatype User = User(id: int, username: string, hashedPassword: string)

  /** A row of `tasks`; `ownerId` refers to `users.id`. */
  datatype Task = Task(id: int, content: string, completed: bool, ownerId: int)

  /** The body of a `PUT /tasks/{id}`: every field may be left out. */
  datatype TaskUpdate = TaskUpdate(content: Option<string>, completed: Option<bool>)

  /** Every error a handler raises, each with its status code and detail text. */
  datatype Failure =
    | UsernameTaken     // register: the name is in use
    | BadCredentials    // login: unknown name or wrong password, deliberately one error
    | NotAuthenticated  // no username in the session
    | UserNotFound      // the session names a user that is not in the table
    | TaskNotFound      // no task with that id owned by the caller
  {
    function Status(): int {
      match this
      case UsernameTaken => 400
      case BadCredentials => 401
      case NotAuthenticated => 401
      case UserNotFound => 404
      case TaskNotFound => 404
    }

    function Detail(): string {
      match this
      case UsernameTaken => "Username already taken"
      case BadCredentials => "Incorrect username or password"
      case NotAuthenticated => "Not authenticated"
      case UserNotFound => "User not found"
      case TaskNotFound => "Task not found"
    }
  }

  /** Two failures produce the same HTTP response exactly when they are the same
      failure, so comparing `Failure` values is comparing what a client sees. */
  lemma ResponseIdentifiesFailure(f: Failure, g: Failure)
    ensures (f.Status() == g.Status() && f.Detail() == g.Detail()) <==> f == g
  {
  }

  /** The task after a partial update: each field present in `u` replaces the
      stored one, each absent field keeps its stored value, and the id and the
      owner never change. */
  function ApplyUpdate(t: Task, u: TaskUpdate): (r: Task)
    ensures r.id == t.id && r.ownerId == t.ownerId
    ensures u.content.None? ==> r.content == t.content
    ensures u.content.Some? ==> r.content == u.content.value
    ensures u.completed.None? ==> r.completed == t.completed
    ensures u.completed.Some? ==> r.completed == u.completed.value
  {
    Task(t.id, u.content.GetOr(t.content), u.completed.GetOr(t.completed), t.ownerId)
  }

  /** An update with no fields leaves the task as it is. */
  lemma EmptyUpdateIsIdentity(t: Task)
    ensures ApplyUpdate(t, TaskUpdate(None, None)) == t
  {
  }

  /** Sending the same update twice has the effect of sending it once. */
  lemma ApplyUpdateIdempotent(t: Task, u: TaskUpdate)
    ensures ApplyUpdate(ApplyUpdate(t, u), u) == ApplyUpdate(t, u)
  {
  }
}
