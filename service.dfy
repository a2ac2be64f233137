/** The todo service: the in-memory collection of users, the identification
    gate that resolves the acting user from the `username` header, and one
    method per route, each a lookup followed by at most one mutation. */
module Service {
  import opened Outcomes
  import opened Todos
  import opened Users

  class Store {
    /** Every registered user, in registration order. */
    var users: seq<User>

    /** What registration guarantees of every stored user: a non-empty name
        and username, and no username held twice. */
    ghost predicate Valid()
      reads this
    {
      DistinctUsernames(users) &&
      forall i :: 0 <= i < |users| ==> users[i].name != "" && users[i].username != ""
    }

    /** The service starts with no users. */
    constructor ()
      ensures Valid() && users == []
    {
      users := [];
    }

    /** The identification gate: the user whose username equals the header,
        or "user not found" when there is none. It changes nothing. */
    function Gate(header: Option<string>): (r: Result<User>)
      reads this
      ensures r.Ok? ==> r.value in users && header == Some(r.value.username)
      ensures r.Err? ==> r.error == UserNotFound && NoUserNamed(users, header)
    {
      match FindUser(users, header)
      case Some(u) => Ok(u)
      case None => Err(UserNotFound)
    }

    /** Under the store's invariant the gate lets through exactly the user
        who holds the username in the header. */
    lemma GateFindsHolder(i: int)
      requires Valid() && 0 <= i < |users|
      ensures Gate(Some(users[i].username)) == Ok(users[i])
    {
      FindUserUnique(users, i);
    }

    /** `POST /users`: register a user under a fresh id. */
    method Register(name: Option<string>, username: Option<string>, freshId: string) returns (r: Result<User>)
      requires Valid()
      modifies this
      ensures Valid()
      ensures forall v :: v in old(users) ==> v.todos == old(v.todos)
      ensures !Given(name) || !Given(username) ==> r == Err(MissingFields) && users == old(users)
      ensures Given(name) && Given(username) && !NoUserNamed(old(users), username) ==>
        r == Err(UsernameTaken) && users == old(users)
      ensures Given(name) && Given(username) && NoUserNamed(old(users), username) ==>
        r.Ok? && fresh(r.value) && users == old(users) + [r.value] &&
        r.value.id == freshId && Some(r.value.name) == name && Some(r.value.username) == username &&
        r.value.todos == []
    {
      if !Given(name) || !Given(username) {
        return Err(MissingFields);
      }
      if FindUser(users, username).Some? {
        return Err(UsernameTaken);
      }
      var u := new User(freshId, name.value, username.value);
      AppendKeepsDistinct(users, u);
      users := users + [u];
      r := Ok(u);
    }

    /** `GET /todos`: the acting user's todos, in insertion order. */
    method ListTodos(header: Option<string>) returns (r: Result<seq<Todo>>)
      ensures Gate(header).Err? ==> r == Err(UserNotFound)
      ensures Gate(header).Ok? ==> r == Ok(Gate(header).value.todos)
    {
      var g := Gate(header);
      if g.Err? {
        return Err(UserNotFound);
      }
      r := Ok(g.value.todos);
    }

    /** `POST /todos`: append a new, open todo to the acting user's list. */
    method CreateTodo(header: Option<string>, freshId: string, title: Option<string>, deadline: Option<string>, now: int)
      returns (r: Result<Todo>)
      modifies users
      ensures users == old(users)
      ensures Gate(header).Err? ==> r == Err(UserNotFound) && forall v :: v in users ==> v.todos == old(v.todos)
      ensures Gate(header).Ok? ==> var u := Gate(header).value;
        r == Ok(Todo(freshId, title, false, Parsed(deadline), now)) &&
        u.todos == old(u.todos) + [r.value] &&
        (UniqueIds(old(u.todos)) && Absent(old(u.todos), freshId) ==> UniqueIds(u.todos)) &&
        forall v :: v in users && v != u ==> v.todos == old(v.todos)
    {
      var g := Gate(header);
      if g.Err? {
        return Err(UserNotFound);
      }
      var user := g.value;
      var todo := Todo(freshId, title, false, Parsed(deadline), now);
      user.todos := user.todos + [todo];
      r := Ok(todo);
    }

    /** `PUT /todos/:id`: replace the title and deadline of the acting user's
        first todo with that id. */
    method UpdateTodo(header: Option<string>, id: string, title: Option<string>, deadline: Option<string>)
      returns (r: Result<Todo>)
      modifies users
      ensures users == old(users)
      ensures Gate(header).Err? ==> r == Err(UserNotFound) && forall v :: v in users ==> v.todos == old(v.todos)
      ensures Gate(header).Ok? ==> var u := Gate(header).value;
        (forall v :: v in users && v != u ==> v.todos == old(v.todos)) &&
        (Absent(old(u.todos), id) ==> r == Err(TodoNotFound) && u.todos == old(u.todos)) &&
        (!Absent(old(u.todos), id) ==>
          u.todos == Updated(old(u.todos), id, title, deadline) &&
          r == Ok(u.todos[FindIndex(old(u.todos), id)]))
    {
      var g := Gate(header);
      if g.Err? {
        return Err(UserNotFound);
      }
      var user := g.value;
      var todo := Find(user.todos, id);
      if todo.None? {
        return Err(TodoNotFound);
      }
      var k := FindIndex(user.todos, id);
      FindAgrees(user.todos, id);
      user.todos := user.todos[k := Edited(todo.value, title, deadline)];
      r := Ok(user.todos[k]);
    }

    /** `PATCH /todos/:id/done`: mark the acting user's first todo with that
        id as done. */
    method CompleteTodo(header: Option<string>, id: string) returns (r: Result<Todo>)
      modifies users
      ensures users == old(users)
      ensures Gate(header).Err? ==> r == Err(UserNotFound) && forall v :: v in users ==> v.todos == old(v.todos)
      ensures Gate(header).Ok? ==> var u := Gate(header).value;
        (forall v :: v in users && v != u ==> v.todos == old(v.todos)) &&
        (Absent(old(u.todos), id) ==> r == Err(TodoNotFound) && u.todos == old(u.todos)) &&
        (!Absent(old(u.todos), id) ==>
          u.todos == Completed(old(u.todos), id) &&
          r == Ok(u.todos[FindIndex(old(u.todos), id)]))
    {
      var g := Gate(header);
      if g.Err? {
        return Err(UserNotFound);
      }
      var user := g.value;
      var todo := Find(user.todos, id);
      if todo.None? {
        return Err(TodoNotFound);
      }
      var k := FindIndex(user.todos, id);
      FindAgrees(user.todos, id);
      user.todos := user.todos[k := todo.value.(done := true)];
      r := Ok(user.todos[k]);
    }

    /** `DELETE /todos/:id`: drop every todo with that id from the acting
        user's list. */
    method DeleteTodo(header: Option<string>, id: string) returns (r: Result<()>)
      modifies users
      ensures users == old(users)
      ensures Gate(header).Err? ==> r == Err(UserNotFound) && forall v :: v in users ==> v.todos == old(v.todos)
      ensures Gate(header).Ok? ==> var u := Gate(header).value;
        (forall v :: v in users && v != u ==> v.todos == old(v.todos)) &&
        (Absent(old(u.todos), id) ==> r == Err(TodoNotFound) && u.todos == old(u.todos)) &&
        (!Absent(old(u.todos), id) ==> r == Ok(()) && u.todos == Without(old(u.todos), id))
    {
      var g := Gate(header);
      if g.Err? {
        return Err(UserNotFound);
      }
      var user := g.value;
      var todo := Find(user.todos, id);
      if todo.None? {
        return Err(TodoNotFound);
      }
      user.todos := Without(user.todos, id);
      r := Ok(());
    }
  }
}
