/** Clients of the service that rely only on the route contracts and the
    lemmas and functions those contracts mention: a
    missing field, then a duplicate registration; a todo id owned by another
    user; update, then delete. Each request gets the answer stated beside it. */
module Walkthrough {
  import opened Outcomes
  import opened Todos
  import opened Users
  import opened Service

  /** Registration: a missing field, a success, a duplicate username. */
  method RegistrationSession()
  {
    var store := new Store();
    var missing := store.Register(Some("Ana"), Some(""), "u0");
    assert missing == Err(MissingFields) && store.users == [];
    var ana := store.Register(Some("Ana"), Some("ana"), "u1");
    assert ana.Ok? && store.users == [ana.value];
    assert store.users[0].username == "ana";
    var again := store.Register(Some("Other"), Some("ana"), "u2");
    assert again == Err(UsernameTaken) && store.users == [ana.value];
  }

  /** The todo routes for one user, and a second user who cannot reach the
      first one's todos. */
  method TodoSession()
  {
    var store := new Store();
    var ana := store.Register(Some("Ana"), Some("ana"), "u1");
    var bob := store.Register(Some("Bob"), Some("bob"), "u2");
    var a, b := ana.value, bob.value;
    assert store.Gate(Some("ana")) == Ok(a) by { store.GateFindsHolder(0); }
    assert store.Gate(Some("bob")) == Ok(b) by { store.GateFindsHolder(1); }

    var stranger := store.CreateTodo(Some("eve"), "t0", Some("x"), None, 0);
    assert stranger == Err(UserNotFound);

    var t1 := store.CreateTodo(Some("ana"), "t1", Some("Buy milk"), Some("2024-01-01"), 10);
    assert t1 == Ok(Todo("t1", Some("Buy milk"), false, Parsed(Some("2024-01-01")), 10));
    assert a.todos == [t1.value];

    var foreign := store.CompleteTodo(Some("bob"), "t1");
    assert foreign == Err(TodoNotFound) && a.todos == [t1.value];

    assert FindIndex(a.todos, "t1") == 0;
    var upd := store.UpdateTodo(Some("ana"), "t1", Some("Buy bread"), Some("2024-02-01"));
    assert upd == Ok(Todo("t1", Some("Buy bread"), false, Raw(Some("2024-02-01")), 10));

    assert Without(a.todos, "t1") == [];
    var gone := store.DeleteTodo(Some("ana"), "t1");
    assert gone == Ok(());
    var listed := store.ListTodos(Some("ana"));
    assert listed == Ok([]);
  }
}
