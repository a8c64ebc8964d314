/**
 The to-do service's data, its lookups, its guard chain and the state steps the
 route handlers perform, all as values over the user collection.
 */
module Todos {
  import IdFormat

  /** A date, as the number of milliseconds a `Date` holds; the service never inspects it. */
  type Instant = int

  datatype Todo = Todo(id: string, title: string, deadline: Instant, done: bool, createdAt: Instant)

  datatype User = User(id: string, name: string, username: string, pro: bool, todos: seq<Todo>)

  datatype Option<T> = None | Some(value: T)

  /** Where the id guard found a to-do: the owner's index and the to-do's index in its list. */
  datatype TodoRef = TodoRef(user: nat, todo: nat)

  /** The outcome of a guard or handler: a value, or one of the three error statuses. */
  datatype Response<T> =
    | Ok(value: T)
    | BadRequest(error: string)  // 400
    | Forbidden(error: string)   // 403
    | NotFound(error: string)    // 404
  {
    /** The same failure, carried on to a handler of another result type. */
    function Forward<U>(): Response<U>
      requires !Ok?
    {
      match this
      case BadRequest(e) => BadRequest(e)
      case Forbidden(e) => Forbidden(e)
      case NotFound(e) => NotFound(e)
    }
  }

  const UsernameMissing := "This username does not exist."
  const QuotaExceeded := " This user should be a pro to create more than 10 to do's"
  const InvalidId := "This id is invalid."
  const UserMissing := "This user does not exist."
  const TaskMissing := "This task does not exist."
  const UserNotFound := "User not found"
  const UsernameExists := "Username already exists"
  const ProAlreadyActive := "Pro plan is already activated."
  const TodoNotFound := "Todo not found"

  /** The number of to-dos a free-tier user may hold before creation is refused. */
  const FreeTierLimit := 10

  // ---------------------------------------------------------------------------
  // Lookups: `find`, `some` and `indexOf` over the collections
  // ---------------------------------------------------------------------------

  /** The index `find` stops at: the first element satisfying p, if any. */
  function FirstIndex<T>(s: seq<T>, p: T -> bool): (r: Option<nat>)
    ensures r.Some? ==> r.value < |s| && p(s[r.value]) && forall k :: 0 <= k < r.value ==> !p(s[k])
    ensures r.None? ==> forall k :: 0 <= k < |s| ==> !p(s[k])
  {
    if s == [] then None
    else if p(s[0]) then Some(0)
    else match FirstIndex(s[1..], p)
      case None => None
      case Some(k) => Some(k + 1)
  }

  /** `indexOf`: the first position holding x, or -1. */
  function IndexOf<T(==)>(s: seq<T>, x: T): (r: int)
    ensures -1 <= r < |s|
    ensures r == -1 <==> x !in s
    ensures r >= 0 ==> s[r] == x && x !in s[..r]
  {
    match FirstIndex(s, (y: T) => y == x)
    case Some(k) => k
    case None => -1
  }

  /** `users.find(user => user.username === username)`, as an index. */
  function UserWithUsername(users: seq<User>, username: string): (r: Option<nat>)
    ensures r.Some? ==> IsFirstWithUsername(users, username, r.value)
    ensures r.None? ==> forall k :: 0 <= k < |users| ==> users[k].username != username
  {
    FirstIndex(users, (u: User) => u.username == username)
  }

  /** `users.find(user => user.id === id)`, as an index. */
  function UserWithId(users: seq<User>, id: string): (r: Option<nat>)
    ensures r.Some? ==> IsFirstWithUserId(users, id, r.value)
    ensures r.None? ==> forall k :: 0 <= k < |users| ==> users[k].id != id
  {
    FirstIndex(users, (u: User) => u.id == id)
  }

  /** `todos.find(task => task.id === id)`, as an index. */
  function TodoWithId(todos: seq<Todo>, id: string): (r: Option<nat>)
    ensures r.Some? ==> IsFirstWithTodoId(todos, id, r.value)
    ensures r.None? ==> forall k :: 0 <= k < |todos| ==> todos[k].id != id
  {
    FirstIndex(todos, (t: Todo) => t.id == id)
  }

  /** `users.some(user => user.username === username)`: exactly when `find` succeeds. */
  predicate UsernameTaken(users: seq<User>, username: string)
    ensures UsernameTaken(users, username) <==> UserWithUsername(users, username).Some?
  {
    exists k :: 0 <= k < |users| && users[k].username == username
  }

  predicate UserIdTaken(users: seq<User>, id: string) {
    exists k :: 0 <= k < |users| && users[k].id == id
  }

  predicate TodoIdTaken(todos: seq<Todo>, id: string) {
    exists k :: 0 <= k < |todos| && todos[k].id == id
  }

  /** i is the first user whose username is the given one. */
  predicate IsFirstWithUsername(users: seq<User>, username: string, i: nat) {
    i < |users| && users[i].username == username &&
    forall k :: 0 <= k < i ==> users[k].username != username
  }

  /** i is the first user whose id is the given one. */
  predicate IsFirstWithUserId(users: seq<User>, id: string, i: nat) {
    i < |users| && users[i].id == id &&
    forall k :: 0 <= k < i ==> users[k].id != id
  }

  /** j is the first to-do with the given id. */
  predicate IsFirstWithTodoId(todos: seq<Todo>, id: string, j: nat) {
    j < |todos| && todos[j].id == id &&
    forall k :: 0 <= k < j ==> todos[k].id != id
  }

  /** The first user with that username holds a to-do with that id. */
  predicate OwnerHoldsTodo(users: seq<User>, username: string, id: string) {
    exists i :: 0 <= i < |users| && IsFirstWithUsername(users, username, i) &&
                TodoIdTaken(users[i].todos, id)
  }

  // ---------------------------------------------------------------------------
  // Guards
  // ---------------------------------------------------------------------------

  /** Resolves the `username` header to the first user holding it. */
  function ChecksExistsUserAccount(users: seq<User>, username: string): (r: Response<nat>)
    ensures r.Ok? <==> UsernameTaken(users, username)
    ensures r.Ok? ==> IsFirstWithUsername(users, username, r.value)
    ensures !r.Ok? ==> r == NotFound(UsernameMissing)
  {
    match UserWithUsername(users, username)
    case Some(i) => Ok(i)
    case None => NotFound(UsernameMissing)
  }

  /** The free-tier quota, checked before a to-do is added. */
  function ChecksCreateTodosUserAvailability(user: User): (r: Response<()>)
    ensures r == Ok(()) || r == Forbidden(QuotaExceeded)
    ensures r.Forbidden? <==> !user.pro && |user.todos| >= FreeTierLimit
  {
    if !user.pro && |user.todos| > 9 then Forbidden(QuotaExceeded) else Ok(())
  }

  /**
   Resolves the `id` path parameter and the `username` header to a to-do. A
   malformed id is refused first, whatever the store holds; then an unknown
   username; then an id the user does not hold.
   */
  function ChecksTodoExists(users: seq<User>, username: string, id: string): (r: Response<TodoRef>)
    ensures r == BadRequest(InvalidId) <==> !IdFormat.IsValidId(id)
    ensures r == NotFound(UserMissing) <==> IdFormat.IsValidId(id) && !UsernameTaken(users, username)
    ensures r == NotFound(TaskMissing) <==>
      IdFormat.IsValidId(id) && UsernameTaken(users, username) && !OwnerHoldsTodo(users, username, id)
    ensures r.Ok? <==> IdFormat.IsValidId(id) && OwnerHoldsTodo(users, username, id)
    ensures r.Ok? ==>
      IsFirstWithUsername(users, username, r.value.user) &&
      IsFirstWithTodoId(users[r.value.user].todos, id, r.value.todo)
  {
    var userFound := UserWithUsername(users, username);
    if !IdFormat.IsValidId(id) then BadRequest(InvalidId)
    else match userFound
      case Some(i) =>
        (match TodoWithId(users[i].todos, id)
         case Some(j) => Ok(TodoRef(i, j))
         case None => NotFound(TaskMissing))
      case None => NotFound(UserMissing)
  }

  /** Resolves the `id` path parameter to the first user with that id. */
  function FindUserById(users: seq<User>, id: string): (r: Response<nat>)
    ensures r.Ok? <==> UserIdTaken(users, id)
    ensures r.Ok? ==> IsFirstWithUserId(users, id, r.value)
    ensures !r.Ok? ==> r == NotFound(UserNotFound)
  {
    match UserWithId(users, id)
    case Some(i) => Ok(i)
    case None => NotFound(UserNotFound)
  }

  // ---------------------------------------------------------------------------
  // State steps: the in-place updates the handlers make, on the element found
  // ---------------------------------------------------------------------------

  /** The sequence keeps its length and every element but the i-th. */
  predicate OthersUnchanged<T(==)>(before: seq<T>, after: seq<T>, i: nat) {
    |after| == |before| && forall k :: 0 <= k < |before| && k != i ==> after[k] == before[k]
  }

  /** Two records of the same account: they may differ in their to-dos only. */
  predicate SameAccount(a: User, b: User) {
    a.id == b.id && a.name == b.name && a.username == b.username && a.pro == b.pro
  }

  /** The record the create-user handler builds: a free-tier account with no to-dos. */
  function NewUser(id: string, name: string, username: string): (u: User)
    ensures u.id == id && u.name == name && u.username == username
    ensures !u.pro && u.todos == []
    ensures WithinQuota(u) && TodoIdsUnique(u.todos)
  {
    User(id, name, username, false, [])
  }

  /** The record the create-todo handler builds: not done, created at the given time. */
  function NewTodo(id: string, title: string, deadline: Instant, now: Instant): (t: Todo)
    ensures t.id == id && t.title == title && t.deadline == deadline
    ensures !t.done && t.createdAt == now
  {
    Todo(id, title, deadline, false, now)
  }

  /** `user.pro = true` on the i-th user. */
  function WithPro(users: seq<User>, i: nat): (r: seq<User>)
    requires i < |users|
    ensures OthersUnchanged(users, r, i)
    ensures r[i].pro
    ensures r[i].id == users[i].id && r[i].name == users[i].name &&
            r[i].username == users[i].username && r[i].todos == users[i].todos
  {
    users[i := users[i].(pro := true)]
  }

  /** `user.todos.push(t)` on the i-th user. */
  function WithTodoAppended(users: seq<User>, i: nat, t: Todo): (r: seq<User>)
    requires i < |users|
    ensures OthersUnchanged(users, r, i) && SameAccount(users[i], r[i])
    ensures |r[i].todos| == |users[i].todos| + 1
    ensures r[i].todos[..|users[i].todos|] == users[i].todos
    ensures r[i].todos[|users[i].todos|] == t
  {
    users[i := users[i].(todos := users[i].todos + [t])]
  }

  /** `todo.title = title; todo.deadline = deadline` on the j-th to-do of the i-th user. */
  function WithTodoEdited(users: seq<User>, i: nat, j: nat, title: string, deadline: Instant): (r: seq<User>)
    requires i < |users| && j < |users[i].todos|
    ensures OthersUnchanged(users, r, i) && SameAccount(users[i], r[i])
    ensures OthersUnchanged(users[i].todos, r[i].todos, j)
    ensures var (was, now) := (users[i].todos[j], r[i].todos[j]);
            now.title == title && now.deadline == deadline &&
            now.id == was.id && now.done == was.done && now.createdAt == was.createdAt
  {
    var todos := users[i].todos;
    users[i := users[i].(todos := todos[j := todos[j].(title := title, deadline := deadline)])]
  }

  /** `todo.done = true` on the j-th to-do of the i-th user. */
  function WithTodoDone(users: seq<User>, i: nat, j: nat): (r: seq<User>)
    requires i < |users| && j < |users[i].todos|
    ensures OthersUnchanged(users, r, i) && SameAccount(users[i], r[i])
    ensures OthersUnchanged(users[i].todos, r[i].todos, j)
    ensures var (was, now) := (users[i].todos[j], r[i].todos[j]);
            now.done &&
            now.id == was.id && now.title == was.title &&
            now.deadline == was.deadline && now.createdAt == was.createdAt
  {
    var todos := users[i].todos;
    users[i := users[i].(todos := todos[j := todos[j].(done := true)])]
  }

  /** `user.todos.splice(j, 1)` on the i-th user. */
  function WithoutTodo(users: seq<User>, i: nat, j: nat): (r: seq<User>)
    requires i < |users| && j < |users[i].todos|
    ensures OthersUnchanged(users, r, i) && SameAccount(users[i], r[i])
    ensures |r[i].todos| == |users[i].todos| - 1
    ensures forall k :: 0 <= k < j ==> r[i].todos[k] == users[i].todos[k]
    ensures forall k :: j <= k < |r[i].todos| ==> r[i].todos[k] == users[i].todos[k + 1]
    ensures multiset(r[i].todos) + multiset{users[i].todos[j]} == multiset(users[i].todos)
  {
    var todos := users[i].todos;
    assert todos == todos[..j] + [todos[j]] + todos[j + 1..];
    users[i := users[i].(todos := todos[..j] + todos[j + 1..])]
  }

  // ---------------------------------------------------------------------------
  // The store invariant
  // ---------------------------------------------------------------------------

  predicate UsernamesUnique(users: seq<User>) {
    forall a, b :: 0 <= a < b < |users| ==> users[a].username != users[b].username
  }

  predicate UserIdsUnique(users: seq<User>) {
    forall a, b :: 0 <= a < b < |users| ==> users[a].id != users[b].id
  }

  predicate TodoIdsUnique(todos: seq<Todo>) {
    forall a, b :: 0 <= a < b < |todos| ==> todos[a].id != todos[b].id
  }

  /** A free-tier user holds at most FreeTierLimit to-dos. */
  predicate WithinQuota(u: User) {
    u.pro || |u.todos| <= FreeTierLimit
  }

  /** What every reachable store satisfies. */
  predicate Invariant(users: seq<User>) {
    && UsernamesUnique(users)
    && UserIdsUnique(users)
    && forall k :: 0 <= k < |users| ==> TodoIdsUnique(users[k].todos) && WithinQuota(users[k])
  }

  /** No to-do anywhere in the store carries this id: what a fresh v4 identifier gives. */
  predicate FreshTodoId(users: seq<User>, id: string) {
    forall k :: 0 <= k < |users| ==> !TodoIdTaken(users[k].todos, id)
  }

  function TodoIds(todos: seq<Todo>): set<string> {
    set t | t in todos :: t.id
  }

  function DoneIds(todos: seq<Todo>): set<string> {
    set t | t in todos && t.done :: t.id
  }

  /**
   How one request may move the store forward: users are only ever added, an
   account keeps its id and username, `pro` never goes back to false, and a
   to-do that was done is still done as long as its user still holds it.
   */
  predicate Advances(before: seq<User>, after: seq<User>) {
    |before| <= |after| &&
    forall k :: 0 <= k < |before| ==>
      && after[k].id == before[k].id
      && after[k].username == before[k].username
      && (before[k].pro ==> after[k].pro)
      && DoneIds(before[k].todos) * TodoIds(after[k].todos) <= DoneIds(after[k].todos)
  }
}
