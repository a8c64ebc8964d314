/**
 The service's in-memory user collection and its eight route handlers. Each
 handler runs its guard chain, stops at the first guard that fails, and
 otherwise updates the user or to-do the guards resolved, in place.
 */
module TodoStore {
  import IdFormat
  import opened Todos
  import TodoProperties

  class Store {
    /** Every registered user, in registration order. */
    var users: seq<User>

    ghost predicate Valid()
      reads this
    {
      Invariant(users)
    }

    constructor ()
      ensures Valid() && users == []
    {
      users := [];
    }

    /** POST /users: register a user under a username nobody holds yet. */
    method CreateUser(name: string, username: string, freshId: string) returns (r: Response<User>)
      requires Valid()
      requires IdFormat.IsUuidV4(freshId) && !UserIdTaken(users, freshId)
      modifies this
      ensures Valid() && Advances(old(users), users)
      ensures UsernameTaken(old(users), username) ==>
                r == BadRequest(UsernameExists) && users == old(users)
      ensures !UsernameTaken(old(users), username) ==>
                r == Ok(NewUser(freshId, name, username)) && users == old(users) + [r.value]
    {
      var usernameAlreadyExists := UsernameTaken(users, username);
      if usernameAlreadyExists {
        return BadRequest(UsernameExists);
      }
      var user := NewUser(freshId, name, username);
      TodoProperties.CreateUserKeepsInvariant(users, freshId, name, username);
      users := users + [user];
      r := Ok(user);
    }

    /** GET /users/:id */
    method GetUser(id: string) returns (r: Response<User>)
      ensures r.Ok? <==> UserIdTaken(users, id)
      ensures r.Ok? ==> exists i: nat :: IsFirstWithUserId(users, id, i) && r.value == users[i]
      ensures !r.Ok? ==> r == NotFound(UserNotFound)
    {
      var found := FindUserById(users, id);
      if !found.Ok? {
        return found.Forward();
      }
      r := Ok(users[found.value]);
    }

    /** PATCH /users/:id/pro: turn on the pro plan, once. */
    method UpgradeToPro(id: string) returns (r: Response<User>)
      requires Valid()
      modifies this
      ensures Valid() && Advances(old(users), users)
      ensures var found := FindUserById(old(users), id);
              if !found.Ok? then
                r == NotFound(UserNotFound) && users == old(users)
              else if old(users)[found.value].pro then
                r == BadRequest(ProAlreadyActive) && users == old(users)
              else
                users == WithPro(old(users), found.value) && r == Ok(users[found.value])
    {
      var found := FindUserById(users, id);
      if !found.Ok? {
        return found.Forward();
      }
      var i := found.value;
      if users[i].pro {
        return BadRequest(ProAlreadyActive);
      }
      TodoProperties.UpgradeKeepsInvariant(users, i);
      users := WithPro(users, i);
      r := Ok(users[i]);
    }

    /** GET /todos: the to-dos of the user named in the `username` header. */
    method ListTodos(username: string) returns (r: Response<seq<Todo>>)
      ensures r.Ok? <==> UsernameTaken(users, username)
      ensures r.Ok? ==> exists i: nat :: IsFirstWithUsername(users, username, i) && r.value == users[i].todos
      ensures !r.Ok? ==> r == NotFound(UsernameMissing)
    {
      var account := ChecksExistsUserAccount(users, username);
      if !account.Ok? {
        return account.Forward();
      }
      r := Ok(users[account.value].todos);
    }

    /** POST /todos: append a new, not yet done to-do, within the free-tier quota. */
    method CreateTodo(username: string, title: string, deadline: Instant, now: Instant, freshId: string)
      returns (r: Response<Todo>)
      requires Valid()
      requires IdFormat.IsUuidV4(freshId) && FreshTodoId(users, freshId)
      modifies this
      ensures Valid() && Advances(old(users), users)
      ensures var account := ChecksExistsUserAccount(old(users), username);
              if !account.Ok? then
                r == NotFound(UsernameMissing) && users == old(users)
              else if !old(users)[account.value].pro && |old(users)[account.value].todos| >= FreeTierLimit then
                r == Forbidden(QuotaExceeded) && users == old(users)
              else
                r == Ok(NewTodo(freshId, title, deadline, now)) &&
                users == WithTodoAppended(old(users), account.value, r.value)
    {
      var account := ChecksExistsUserAccount(users, username);
      if !account.Ok? {
        return account.Forward();
      }
      var i := account.value;
      var available := ChecksCreateTodosUserAvailability(users[i]);
      if !available.Ok? {
        return available.Forward();
      }
      var newTodo := NewTodo(freshId, title, deadline, now);
      TodoProperties.AppendKeepsInvariant(users, i, newTodo);
      users := WithTodoAppended(users, i, newTodo);
      r := Ok(newTodo);
    }

    /** PUT /todos/:id: overwrite the title and deadline of the resolved to-do. */
    method UpdateTodo(username: string, id: string, title: string, deadline: Instant) returns (r: Response<Todo>)
      requires Valid()
      modifies this
      ensures Valid() && Advances(old(users), users)
      ensures var found := ChecksTodoExists(old(users), username, id);
              if !found.Ok? then
                r == found.Forward() && users == old(users)
              else
                var ref := found.value;
                users == WithTodoEdited(old(users), ref.user, ref.todo, title, deadline) &&
                r == Ok(users[ref.user].todos[ref.todo])
    {
      var found := ChecksTodoExists(users, username, id);
      if !found.Ok? {
        return found.Forward();
      }
      var ref := found.value;
      TodoProperties.EditKeepsInvariant(users, ref.user, ref.todo, title, deadline);
      users := WithTodoEdited(users, ref.user, ref.todo, title, deadline);
      r := Ok(users[ref.user].todos[ref.todo]);
    }

    /** PATCH /todos/:id/done: mark the resolved to-do done. */
    method MarkTodoDone(username: string, id: string) returns (r: Response<Todo>)
      requires Valid()
      modifies this
      ensures Valid() && Advances(old(users), users)
      ensures var found := ChecksTodoExists(old(users), username, id);
              if !found.Ok? then
                r == found.Forward() && users == old(users)
              else
                var ref := found.value;
                users == WithTodoDone(old(users), ref.user, ref.todo) &&
                r == Ok(users[ref.user].todos[ref.todo])
    {
      var found := ChecksTodoExists(users, username, id);
      if !found.Ok? {
        return found.Forward();
      }
      var ref := found.value;
      TodoProperties.DoneKeepsInvariant(users, ref.user, ref.todo);
      users := WithTodoDone(users, ref.user, ref.todo);
      r := Ok(users[ref.user].todos[ref.todo]);
    }

    /** DELETE /todos/:id: remove the resolved to-do from its user's list. */
    method DeleteTodo(username: string, id: string) returns (r: Response<()>)
      requires Valid()
      modifies this
      ensures Valid() && Advances(old(users), users)
      ensures var account := ChecksExistsUserAccount(old(users), username);
              var found := ChecksTodoExists(old(users), username, id);
              if !account.Ok? then
                r == NotFound(UsernameMissing) && users == old(users)
              else if !found.Ok? then
                r == found.Forward() && users == old(users)
              else
                r == Ok(()) && users == WithoutTodo(old(users), found.value.user, found.value.todo)
    {
      var account := ChecksExistsUserAccount(users, username);
      if !account.Ok? {
        return account.Forward();
      }
      var found := ChecksTodoExists(users, username, id);
      if !found.Ok? {
        return found.Forward();
      }
      var user := users[found.value.user];
      var todo := user.todos[found.value.todo];
      TodoProperties.DeleteFindsResolvedTodo(users, username, id);
      var todoIndex := IndexOf(user.todos, todo);
      if todoIndex == -1 {
        return NotFound(TodoNotFound);
      }
      TodoProperties.RemoveKeepsInvariant(users, found.value.user, todoIndex);
      users := WithoutTodo(users, found.value.user, todoIndex);
      r := Ok(());
    }
  }
}
