/** The read-only queries the handlers run against the two tables:
    looking a user up by name, resolving the session to a user, checking a
    login, finding a task by id and owner, and listing a user's tasks in the
    order `completed` ascending, then `id` descending. */
module Queries {
  import opened Wrappers
  import opened Schema

  // ---------------------------------------------------------------- users

  /** No two rows of the user table share a username (the column is `unique`). */
  ghost predicate UniqueNames(users: seq<User>) {
    forall i, j | 0 <= i < j < |users| :: users[i].username != users[j].username
  }

  /** `users.filter(username == name).first()`: the first row with that name. */
  function FindUser(users: seq<User>, name: string): (r: Option<User>)
    ensures r.None? <==> forall i | 0 <= i < |users| :: users[i].username != name
    ensures r.Some? ==> exists i | 0 <= i < |users| ::
              users[i] == r.value && r.value.username == name &&
              forall j | 0 <= j < i :: users[j].username != name
  {
    if |users| == 0 then None
    else if users[0].username == name then Some(users[0])
    else
      var r := FindUser(users[1..], name);
      assert forall i | 1 <= i < |users| :: users[i] == users[1..][i - 1];
      r
  }

  /** The number of rows of the user table with the given name. */
  function NamedCount(users: seq<User>, name: string): nat {
    |set i | 0 <= i < |users| && users[i].username == name|
  }

  /** In a table with unique names, the name is held by exactly one row when
      it is held at all, and by none otherwise. */
  lemma NamedCountUnique(users: seq<User>, name: string)
    requires UniqueNames(users)
    ensures NamedCount(users, name) == if FindUser(users, name).Some? then 1 else 0
  {
    var rows := set i | 0 <= i < |users| && users[i].username == name;
    if FindUser(users, name).Some? {
      var k :| 0 <= k < |users| && users[k].username == name;
      assert k in rows;
      assert rows == {k};
    } else {
      assert rows == {};
    }
  }

  /** Appending a row under a name no row holds keeps the names unique, and a
      lookup of that name then finds the new row. */
  lemma AppendFreshName(users: seq<User>, u: User)
    requires UniqueNames(users)
    requires FindUser(users, u.username).None?
    ensures UniqueNames(users + [u])
    ensures FindUser(users + [u], u.username) == Some(u)
  {
    var grown := users + [u];
    assert grown[|users|] == u;
    forall i | 0 <= i < |users| ensures grown[i].username != u.username {
      assert grown[i] == users[i];
    }
  }

  /** `pwd_context.verify`: a password matches a stored hash when hashing it gives that hash. */
  function Verify(hash: string -> string, password: string, hashed: string): bool {
    hash(password) == hashed
  }

  /** The credential check of `login`: the named user when the password
      verifies against its stored hash, nothing otherwise. Whether the name is
      unknown or the password wrong, the result is the same `None`. */
  function Authenticate(users: seq<User>, hash: string -> string, name: string, password: string): (r: Option<User>)
    requires UniqueNames(users)
    ensures r.Some? ==> r.value in users && r.value.username == name
    ensures r.Some? <==> exists i | 0 <= i < |users| ::
              users[i].username == name && Verify(hash, password, users[i].hashedPassword)
  {
    var u := FindUser(users, name);
    if u.Some? && Verify(hash, password, u.value.hashedPassword) then u else None
  }

  /** `get_current_user`: a missing or empty session username is 401 (the
      source tests it with `not username`), a username that no row holds is 404,
      and otherwise the row with that name. */
  function CurrentUser(users: seq<User>, session: Option<string>): (r: Result<User, Failure>)
    ensures (session.None? || session.value == "") <==> r == Err(NotAuthenticated)
    ensures r == Err(UserNotFound) <==>
              session.Some? && session.value != "" &&
              forall i | 0 <= i < |users| :: users[i].username != session.value
    ensures (session.Some? && session.value != "" &&
             exists i | 0 <= i < |users| :: users[i].username == session.value) ==> r.Ok?
    ensures r.Ok? ==> session.Some? && r.value in users && r.value.username == session.value
  {
    match session
    case None => Err(NotAuthenticated)
    case Some(name) =>
      if name == "" then Err(NotAuthenticated)
      else match FindUser(users, name)
        case None => Err(UserNotFound)
        case Some(u) => Ok(u)
  }

  /** After a login that passes the credential check, the session resolves to
      the user who logged in, unless the name is empty (which `not username`
      treats as no session). */
  lemma LoginResolves(users: seq<User>, hash: string -> string, name: string, password: string)
    requires UniqueNames(users)
    requires Authenticate(users, hash, name, password).Some?
    ensures name != "" ==> CurrentUser(users, Some(name)) == Ok(Authenticate(users, hash, name, password).value)
    ensures name == "" ==> CurrentUser(users, Some(name)) == Err(NotAuthenticated)
  {
  }

  // ---------------------------------------------------------------- tasks

  /** Every entry of the task table is keyed by its own id. */
  ghost predicate KeyedById(tasks: map<int, Task>) {
    forall id | id in tasks :: tasks[id].id == id
  }

  /** `tasks.filter(id == taskId, ownerId == owner).first()`: a stored task
      whose id is `taskId` and whose owner is `owner`, if there is one;
      existence and ownership are tested together. */
  function OwnedTask(tasks: map<int, Task>, taskId: int, owner: int): (r: Option<Task>)
    requires KeyedById(tasks)
    ensures r.Some? <==> exists k | k in tasks :: tasks[k].id == taskId && tasks[k].ownerId == owner
    ensures r.Some? ==> r.value.id == taskId && r.value.ownerId == owner
    ensures r.Some? ==> taskId in tasks && r.value == tasks[taskId]
  {
    if taskId in tasks && tasks[taskId].ownerId == owner then Some(tasks[taskId]) else None
  }

  /** A task owned by someone else is indistinguishable from a missing one:
      the lookup answers the same as on a table from which it was removed. */
  lemma ForeignTaskLooksMissing(tasks: map<int, Task>, taskId: int, owner: int)
    requires KeyedById(tasks)
    requires taskId in tasks && tasks[taskId].ownerId != owner
    ensures OwnedTask(tasks, taskId, owner) == OwnedTask(tasks - {taskId}, taskId, owner) == None
  {
  }

  /** The owner's tasks with ids below `n`, in ascending id order (the filtered
      table scan, before `order_by`). */
  function OwnedRows(tasks: map<int, Task>, owner: int, n: nat): (r: seq<Task>)
    requires KeyedById(tasks)
    ensures forall t :: t in r <==> 0 <= t.id < n && t.id in tasks && tasks[t.id] == t && t.ownerId == owner
    ensures forall i, j | 0 <= i < j < |r| :: r[i].id < r[j].id
  {
    if n == 0 then []
    else
      var prefix := OwnedRows(tasks, owner, n - 1);
      var k := n - 1;
      if k in tasks && tasks[k].ownerId == owner then prefix + [tasks[k]] else prefix
  }

  /** `a` is listed before `b`: incomplete before complete, and within a group
      the larger (newer) id first. */
  predicate Before(a: Task, b: Task) {
    (!a.completed && b.completed) || (a.completed == b.completed && a.id > b.id)
  }

  /** Each element of `s` is listed before every later one. */
  ghost predicate InListOrder(s: seq<Task>) {
    forall i, j | 0 <= i < j < |s| :: Before(s[i], s[j])
  }

  /** No two elements of `s` share an id. */
  ghost predicate DistinctIds(s: seq<Task>) {
    forall i, j | 0 <= i < j < |s| :: s[i].id != s[j].id
  }

  /** `t` placed into the ordered list `s` at its position. */
  function Insert(t: Task, s: seq<Task>): (r: seq<Task>)
    requires InListOrder(s)
    requires forall x | x in s :: x.id != t.id
    ensures InListOrder(r)
    ensures multiset(r) == multiset(s) + multiset{t}
    ensures forall x :: x in r <==> x in s || x == t
  {
    if s == [] then [t]
    else if Before(t, s[0]) then [t] + s
    else
      var rest := Insert(t, s[1..]);
      assert forall x | x in rest :: Before(s[0], x);
      assert s == [s[0]] + s[1..];
      [s[0]] + rest
  }

  /** `s` sorted into list order by insertion. */
  function SortTasks(s: seq<Task>): (r: seq<Task>)
    requires DistinctIds(s)
    ensures InListOrder(r)
    ensures multiset(r) == multiset(s)
    ensures forall x :: x in r <==> x in s
  {
    if s == [] then []
    else
      assert s == [s[0]] + s[1..];
      var rest := SortTasks(s[1..]);
      Insert(s[0], rest)
  }

  /** The list `get_tasks` returns for `owner` when every task id is below `n`:
      exactly the owner's tasks, each once, in list order. */
  function ListTasks(tasks: map<int, Task>, owner: int, n: nat): (r: seq<Task>)
    requires KeyedById(tasks)
    requires forall id | id in tasks :: 0 <= id < n
    ensures forall t :: t in r <==> t.id in tasks && tasks[t.id] == t && t.ownerId == owner
    ensures InListOrder(r)
    ensures DistinctIds(r)
  {
    SortTasks(OwnedRows(tasks, owner, n))
  }

  /** A task that is incomplete and holds the largest id of the owner's tasks
      (as a task just added does) heads the owner's list. */
  lemma NewestIncompleteHeadsList(tasks: map<int, Task>, owner: int, n: nat, t: Task)
    requires KeyedById(tasks) && forall id | id in tasks :: 0 <= id < n
    requires t.id in tasks && tasks[t.id] == t && t.ownerId == owner && !t.completed
    requires forall id | id in tasks && tasks[id].ownerId == owner :: id <= t.id
    ensures var r := ListTasks(tasks, owner, n); |r| > 0 && r[0] == t
  {
  }

  /** Two lists in list order with the same elements are the same list: the
      ordering alone fixes the response. */
  lemma {:induction false} ListOrderDetermines(s: seq<Task>, u: seq<Task>)
    requires InListOrder(s) && InListOrder(u)
    requires forall t :: t in s <==> t in u
    ensures s == u
  {
    if s != [] { assert s[0] in s; }
    if u != [] { assert u[0] in u; }
    if s != [] && u != [] {
      // each head is listed before every other element of both lists
      assert s[0] == u[0];
      forall t ensures t in s[1..] <==> t in u[1..] {
        if t in s[1..] {
          var i :| 1 <= i < |s| && s[i] == t;
          assert Before(s[0], t) && t in s;
          var j :| 0 <= j < |u| && u[j] == t;
          assert j != 0 && u[1..][j - 1] == t;
        }
        if t in u[1..] {
          var j :| 1 <= j < |u| && u[j] == t;
          assert Before(u[0], t) && t in u;
          var i :| 0 <= i < |s| && s[i] == t;
          assert i != 0 && s[1..][i - 1] == t;
        }
      }
      ListOrderDetermines(s[1..], u[1..]);
      assert s == [s[0]] + s[1..] && u == [u[0]] + u[1..];
    }
  }

  /** The owner's part of the task table. */
  function OwnedPart(tasks: map<int, Task>, owner: int): (r: map<int, Task>)
  {
    map id | id in tasks && tasks[id].ownerId == owner :: tasks[id]
  }

  /** A user's list depends on that user's tasks only: dropping every task of
      other users leaves it as it is. */
  lemma ListTasksIsolated(tasks: map<int, Task>, owner: int, n: nat)
    requires KeyedById(tasks) && forall id | id in tasks :: 0 <= id < n
    ensures KeyedById(OwnedPart(tasks, owner))
    ensures ListTasks(tasks, owner, n) == ListTasks(OwnedPart(tasks, owner), owner, n)
  {
    var s, u := ListTasks(tasks, owner, n), ListTasks(OwnedPart(tasks, owner), owner, n);
    ListOrderDetermines(s, u);
  }
}
