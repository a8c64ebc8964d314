/**
 Properties of the to-do service's steps: each one keeps the store invariant and
 only moves the store forward, and the guards and steps fit together across
 successive requests.
 */
module TodoProperties {
  import IdFormat
  import opened Todos

  // ---------------------------------------------------------------------------
  // What the guards look at
  // ---------------------------------------------------------------------------

  /** Same users in the same order, as far as the lookups by username and id can tell. */
  predicate SameKeys(a: seq<User>, b: seq<User>) {
    |a| == |b| &&
    forall k :: 0 <= k < |a| ==> a[k].id == b[k].id && a[k].username == b[k].username
  }

  /** Same keys, and every user's to-dos carry the same ids in the same order. */
  predicate SameTodoIds(a: seq<User>, b: seq<User>) {
    SameKeys(a, b) &&
    forall k :: 0 <= k < |a| ==>
      |a[k].todos| == |b[k].todos| &&
      forall j :: 0 <= j < |a[k].todos| ==> a[k].todos[j].id == b[k].todos[j].id
  }

  lemma SameKeysSameLookups(a: seq<User>, b: seq<User>, username: string, id: string)
    requires SameKeys(a, b)
    ensures UserWithUsername(a, username) == UserWithUsername(b, username)
    ensures UserWithId(a, id) == UserWithId(b, id)
  {
  }

  lemma SameIdsSameLookup(a: seq<Todo>, b: seq<Todo>, id: string)
    requires |a| == |b| && forall j :: 0 <= j < |a| ==> a[j].id == b[j].id
    ensures TodoWithId(a, id) == TodoWithId(b, id)
  {
  }

  lemma UserGuardsSeeOnlyKeys(a: seq<User>, b: seq<User>, username: string, id: string)
    requires SameKeys(a, b)
    ensures ChecksExistsUserAccount(a, username) == ChecksExistsUserAccount(b, username)
    ensures FindUserById(a, id) == FindUserById(b, id)
  {
  }

  lemma TodoGuardSeesOnlyIds(a: seq<User>, b: seq<User>, username: string, id: string)
    requires SameTodoIds(a, b)
    ensures ChecksTodoExists(a, username, id) == ChecksTodoExists(b, username, id)
  {
    SameKeysSameLookups(a, b, username, id);
    match UserWithUsername(a, username)
    case Some(i) => SameIdsSameLookup(a[i].todos, b[i].todos, id);
    case None =>
  }

  // ---------------------------------------------------------------------------
  // Every step keeps the invariant and moves the store forward
  // ---------------------------------------------------------------------------

  lemma CreateUserKeepsInvariant(users: seq<User>, id: string, name: string, username: string)
    requires Invariant(users)
    requires !UsernameTaken(users, username) && !UserIdTaken(users, id)
    ensures var after := users + [NewUser(id, name, username)];
            Invariant(after) && Advances(users, after) && after[..|users|] == users
  {
  }

  lemma UpgradeKeepsInvariant(users: seq<User>, i: nat)
    requires Invariant(users) && i < |users|
    ensures Invariant(WithPro(users, i)) && Advances(users, WithPro(users, i))
  {
  }

  lemma AppendKeepsInvariant(users: seq<User>, i: nat, t: Todo)
    requires Invariant(users) && i < |users|
    requires ChecksCreateTodosUserAvailability(users[i]) == Ok(())
    requires !TodoIdTaken(users[i].todos, t.id)
    ensures Invariant(WithTodoAppended(users, i, t)) && Advances(users, WithTodoAppended(users, i, t))
  {
  }

  lemma EditKeepsInvariant(users: seq<User>, i: nat, j: nat, title: string, deadline: Instant)
    requires Invariant(users) && i < |users| && j < |users[i].todos|
    ensures var after := WithTodoEdited(users, i, j, title, deadline);
            Invariant(after) && Advances(users, after)
  {
  }

  lemma DoneKeepsInvariant(users: seq<User>, i: nat, j: nat)
    requires Invariant(users) && i < |users| && j < |users[i].todos|
    ensures Invariant(WithTodoDone(users, i, j)) && Advances(users, WithTodoDone(users, i, j))
  {
  }

  lemma RemoveKeepsInvariant(users: seq<User>, i: nat, j: nat)
    requires Invariant(users) && i < |users| && j < |users[i].todos|
    ensures Invariant(WithoutTodo(users, i, j)) && Advances(users, WithoutTodo(users, i, j))
  {
  }

  // ---------------------------------------------------------------------------
  // Successive requests
  // ---------------------------------------------------------------------------

  /**
   After a successful upgrade the id still resolves to the same user, now pro, so
   a second upgrade request is refused with "Pro plan is already activated.".
   */
  lemma UpgradeTwiceRefused(users: seq<User>, id: string)
    requires FindUserById(users, id).Ok?
    ensures var i := FindUserById(users, id).value;
            FindUserById(WithPro(users, i), id) == Ok(i) && WithPro(users, i)[i].pro
  {
  }

  /**
   Marking a to-do done resolves the same to-do again afterwards, and doing it a
   second time leaves the store as the first time did.
   */
  lemma MarkDoneIdempotent(users: seq<User>, username: string, id: string)
    requires ChecksTodoExists(users, username, id).Ok?
    ensures var ref := ChecksTodoExists(users, username, id).value;
            var once := WithTodoDone(users, ref.user, ref.todo);
            ChecksTodoExists(once, username, id) == Ok(ref) &&
            WithTodoDone(once, ref.user, ref.todo) == once
  {
    var ref := ChecksTodoExists(users, username, id).value;
    var once := WithTodoDone(users, ref.user, ref.todo);
    TodoGuardSeesOnlyIds(users, once, username, id);
    var todos := once[ref.user].todos;
    assert todos[ref.todo].(done := true) == todos[ref.todo];
    assert todos[ref.todo := todos[ref.todo]] == todos;
    assert once[ref.user].(todos := todos) == once[ref.user];
  }

  /**
   After an update the to-do list under the same username shows the to-do with
   the new title and deadline, and its id, done flag and creation date as before.
   */
  lemma UpdateVisibleInList(users: seq<User>, username: string, id: string, title: string, deadline: Instant)
    requires ChecksTodoExists(users, username, id).Ok?
    ensures var ref := ChecksTodoExists(users, username, id).value;
            var after := WithTodoEdited(users, ref.user, ref.todo, title, deadline);
            var was := users[ref.user].todos[ref.todo];
            && ChecksExistsUserAccount(after, username) == Ok(ref.user)
            && after[ref.user].todos[ref.todo] == Todo(was.id, title, deadline, was.done, was.createdAt)
  {
  }

  /**
   In the delete handler both guards resolve the same user, and `indexOf` finds
   the resolved to-do at the index the id guard found it: the "Todo not found"
   branch is never taken.
   */
  lemma DeleteFindsResolvedTodo(users: seq<User>, username: string, id: string)
    requires ChecksExistsUserAccount(users, username).Ok?
    requires ChecksTodoExists(users, username, id).Ok?
    ensures var ref := ChecksTodoExists(users, username, id).value;
            ref.user == ChecksExistsUserAccount(users, username).value &&
            IndexOf(users[ref.user].todos, users[ref.user].todos[ref.todo]) == ref.todo
  {
  }

  /**
   Once a to-do is deleted, the same delete request no longer resolves it:
   the id guard answers "This task does not exist.".
   */
  lemma DeleteTwiceNotFound(users: seq<User>, username: string, id: string)
    requires Invariant(users)
    requires ChecksTodoExists(users, username, id).Ok?
    ensures var ref := ChecksTodoExists(users, username, id).value;
            ChecksTodoExists(WithoutTodo(users, ref.user, ref.todo), username, id) == NotFound(TaskMissing)
  {
  }

  /**
   A to-do created under a username with a generated identifier can be reached
   right away through the id routes under that username.
   */
  lemma CreatedTodoIsReachable(users: seq<User>, username: string, t: Todo)
    requires ChecksExistsUserAccount(users, username).Ok?
    requires IdFormat.IsUuidV4(t.id)
    requires !TodoIdTaken(users[ChecksExistsUserAccount(users, username).value].todos, t.id)
    ensures var i := ChecksExistsUserAccount(users, username).value;
            ChecksTodoExists(WithTodoAppended(users, i, t), username, t.id) == Ok(TodoRef(i, |users[i].todos|))
  {
    var i := ChecksExistsUserAccount(users, username).value;
    var after := WithTodoAppended(users, i, t);
    var was := users[i].todos;
    IdFormat.GeneratedIdIsValid(t.id);
    SameKeysSameLookups(users, after, username, t.id);
    assert UserWithUsername(after, username) == Some(i);
    assert TodoWithId(after[i].todos, t.id) == Some(|was|) by {
      assert after[i].todos[|was|] == t;
      assert forall k :: 0 <= k < |was| ==> after[i].todos[k] == was[k];
    }
  }

  /**
   A free-tier user holding FreeTierLimit to-dos is refused; a pro user never is.
   With the invariant this is why no free-tier user ever exceeds the limit.
   */
  lemma QuotaBoundary(u: User)
    ensures !u.pro && |u.todos| == FreeTierLimit ==> ChecksCreateTodosUserAvailability(u).Forbidden?
    ensures !u.pro && |u.todos| < FreeTierLimit ==> ChecksCreateTodosUserAvailability(u).Ok?
    ensures u.pro ==> ChecksCreateTodosUserAvailability(u).Ok?
  {
  }
}
