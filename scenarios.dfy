/** Request sequences a client can send, with what the handlers' contracts
    alone let a caller conclude about the replies. */
module Scenarios {
  import opened Wrappers
  import opened Schema
  import opened Queries
  import opened Handlers

  /** Logging out twice leaves the same state as logging out once. */
  method LogoutTwice(app: TodoApp)
    modifies app
    ensures app.session == None
    ensures app.users == old(app.users) && app.tasks == old(app.tasks)
    ensures app.nextTaskId == old(app.nextTaskId)
  {
    app.Logout();
    ghost var once := app.session;
    app.Logout();
    assert app.session == once;
  }

  /** A delete that succeeds removes the task, so repeating it is a 404. */
  method DeleteTwice(app: TodoApp, taskId: int) returns (first: Outcome<Failure>, second: Outcome<Failure>)
    requires app.Valid()
    modifies app
    ensures app.Valid()
    ensures first.Pass? ==> second == Fail(TaskNotFound) && taskId !in app.tasks
    ensures first.Fail? ==> second == first && app.tasks == old(app.tasks)
  {
    first := app.DeleteTask(taskId);
    second := app.DeleteTask(taskId);
  }

  /** Register alice, log in, create "buy milk", list it, complete it, list it
      again, delete it, and list nothing; whatever the hash function. */
  method EndToEnd(hash: string -> string)
    returns (listed: Result<seq<Task>, Failure>, relisted: Result<seq<Task>, Failure>,
             emptied: Result<seq<Task>, Failure>)
    ensures listed == Ok([Task(1, "buy milk", false, 1)])
    ensures relisted == Ok([Task(1, "buy milk", true, 1)])
    ensures emptied == Ok([])
  {
    var app := new TodoApp(hash);
    var registered := app.Register("alice", "pw1");
    assert registered.Pass?;
    var loggedIn := app.Login("alice", "pw1");
    assert app.users[0].username == "alice";
    assert loggedIn.Pass?;
    assert CurrentUser(app.users, app.session) == Ok(User(1, "alice", hash("pw1")));
    var added := app.AddTask("buy milk");
    var milk := Task(1, "buy milk", false, 1);
    assert added == Ok(milk);
    listed := app.GetTasks();
    ListOrderDetermines(listed.value, [milk]);
    var updated := app.UpdateTask(1, TaskUpdate(None, Some(true)));
    var done := Task(1, "buy milk", true, 1);
    assert updated == Ok(done);
    relisted := app.GetTasks();
    ListOrderDetermines(relisted.value, [done]);
    var deleted := app.DeleteTask(1);
    assert deleted.Pass?;
    emptied := app.GetTasks();
    ListOrderDetermines(emptied.value, []);
  }

  /** Alice and bob register, alice logs in, adds "buy milk" and logs out. */
  method AliceAddsMilk(hash: string -> string) returns (app: TodoApp)
    ensures fresh(app) && app.Valid() && app.hash == hash
    ensures app.users == [User(1, "alice", hash("pw1")), User(2, "bob", hash("pw2"))]
    ensures app.tasks == map[1 := Task(1, "buy milk", false, 1)]
    ensures app.session == None
  {
    app := new TodoApp(hash);
    var a := app.Register("alice", "pw1");
    var b := app.Register("bob", "pw2");
    assert app.users[0].username == "alice" && app.users[1].username == "bob";
    var la := app.Login("alice", "pw1");
    assert la.Pass?;
    var added := app.AddTask("buy milk");
    app.Logout();
  }

  /** Bob cannot touch or see alice's task: his update is the same 404 as for a
      missing id, her task keeps its content, and his list is empty. */
  method ForeignTaskHidden(hash: string -> string)
    returns (attempt: Result<Task, Failure>, bobsList: Result<seq<Task>, Failure>, kept: Task)
    ensures attempt == Err(TaskNotFound)
    ensures bobsList == Ok([])
    ensures kept == Task(1, "buy milk", false, 1)
  {
    var app := AliceAddsMilk(hash);
    var lb := app.Login("bob", "pw2");
    assert app.users[1].username == "bob" && Verify(app.hash, "pw2", app.users[1].hashedPassword);
    assert lb.Pass?;
    assert CurrentUser(app.users, app.session) == Ok(User(2, "bob", hash("pw2")));
    attempt := app.UpdateTask(1, TaskUpdate(Some("sell milk"), None));
    bobsList := app.GetTasks();
    ListOrderDetermines(bobsList.value, []);
    kept := app.tasks[1];
  }
}
