/** Request sequences the service is expected to answer in a fixed way, run against fresh
    stores; what each proves follows from the handlers' contracts alone. */
module Scenarios {
  import opened Wrappers
  import opened Clock
  import opened Errors
  import opened Password
  import opened Jwt
  import opened UserModel
  import opened TodoModel
  import opened AuthController
  import opened TodoController
  import opened AuthMiddleware

  /** Registering a second account under the lower-cased spelling of a registered email is
      refused. */
  method DuplicateEmailByCase(email: string, hasher: Hasher, salt1: Salt, salt2: Salt,
                              svc: TokenService, now: Timestamp)
    returns (first: Reply<Session<PublicUser>>, second: Reply<Session<PublicUser>>, accounts: nat)
    ensures first.Ok? && first.status == 201 && first.data.user.id == 1
    ensures second == Err(EmailTaken)
    ensures accounts == 1
  {
    var users := new UserStore();
    first := Register(users, RegisterBody("Ann", email, "secret1"), hasher, salt1, svc, now);
    assert users.users[0].email == email;
    LowerIdempotent(email);
    second := Register(users, RegisterBody("Anne", Lower(email), "secret2"), hasher, salt2, svc, now);
    accounts := |users.users|;
  }

  /** Register, log in with the lower-cased spelling of the email, and pass the gate with the login token:
      the gate hands on the identity of the registered account. */
  method SignUpAndSignIn(email: string, hasher: Hasher, salt: Salt, svc: TokenService, t0: Timestamp, t1: Timestamp)
    returns (registered: Reply<Session<PublicUser>>, loggedIn: Reply<Session<LoginUser>>,
             passed: bool, me: Claims)
    requires Sound(hasher) && Honest(svc)
    requires t0 <= t1 < t0 + svc.ttl
    ensures registered.Ok? && registered.status == 201 && registered.data.user.id == 1
    ensures loggedIn.Ok? && loggedIn.status == 200 && loggedIn.data.user == LoginUser(1, "Ann", email)
    ensures passed && me.id == registered.data.user.id && me.email == email
  {
    var users := new UserStore();
    var body := RegisterBody("Ann", email, "secret1");
    registered := Register(users, body, hasher, salt, svc, t0);
    assert users.users == [NewUser([], body, hasher, salt, t0)];

    LowerIdempotent(email);
    LoginAfterRegister([], body, hasher, salt, t0, Lower(email));
    loggedIn := Login(users, LoginBody(Lower(email), "secret1"), hasher, svc, t0);

    var req := new Request(Some("Bearer " + loggedIn.data.token));
    IssuedTokenPasses(svc, Payload(1, email, "Ann"), t0, t1);
    var next, sent := VerifyToken(req, svc, t1);
    passed := next && req.user.Some?;
    me := req.user.value;
  }

  /** Create a todo, mark it done, delete it, and look it up again. */
  method TodoLifecycle(me: Claims, t0: Timestamp, t1: Timestamp)
    returns (created: Reply<Todo>, patched: Reply<Todo>, deleted: Reply<()>, lookup: Reply<Todo>)
    ensures created.Ok? && created.status == 201 && created.data.id == 1
    ensures created.data.title == "Buy milk" && !created.data.completed
    ensures patched.Ok? && patched.status == 200 && patched.data.completed
    ensures patched.data.title == "Buy milk" && patched.data.id == 1 && patched.data.updatedAt == t1
    ensures deleted.Ok? && deleted.status == 200
    ensures lookup == Err(NotFound)
  {
    var store := new TodoStore();
    created := TodoController.CreateTodo(store, me, CreateBody("Buy milk", None), t0);
    assert store.todos[me.id] == [created.data];
    patched := TodoController.UpdateTodo(store, me, 1, UpdateBody(None, None, Some(true)), t1);
    assert store.todos[me.id] == [patched.data];
    assert Without([patched.data], 1) == [] by { WithoutSingle(patched.data, 1); }
    deleted := TodoController.DeleteTodo(store, me, 1);
    assert store.todos[me.id] == [];
    lookup := TodoController.GetTodoById(store, me, 1);
  }

  /** Another user's requests never see or touch a todo, even when they name its id. */
  method CrossUserIsolation(owner: Claims, other: Claims, title: string, now: Timestamp)
    returns (listed: seq<Todo>, got: Reply<Todo>, patched: Reply<Todo>, deleted: Reply<()>,
             ownerList: seq<Todo>, created: Todo)
    requires owner.id != other.id
    ensures listed == []
    ensures got == Err(NotFound) && patched == Err(NotFound) && deleted == Err(NotFound)
    ensures ownerList == [created] && created.id == 1 && created.title == title
  {
    var store := new TodoStore();
    var c := TodoController.CreateTodo(store, owner, CreateBody(title, None), now);
    created := c.data;
    var list := TodoController.GetAllTodos(store, other);
    listed := list.data.todos;
    got := TodoController.GetTodoById(store, other, created.id);
    patched := TodoController.UpdateTodo(store, other, created.id, UpdateBody(Some(""), None, Some(true)), now);
    deleted := TodoController.DeleteTodo(store, other, created.id);
    var mine := TodoController.GetAllTodos(store, owner);
    ownerList := mine.data.todos;
  }

  /** Deleting a user's only todo and creating another hands out the same id again, and
      the lookup then finds the new content. With more todos left behind the lookup can find
      an older todo instead (`TodoModel.IdReuseAfterDelete`). */
  method RecreateAfterDelete(user: Claims, oldTitle: string, newTitle: string, now: Timestamp)
    returns (first: Todo, second: Todo, found: Reply<Todo>)
    ensures first.id == 1 && second.id == 1
    ensures found.Ok? && found.data == second && found.data.title == newTitle
  {
    var store := new TodoStore();
    var c1 := TodoController.CreateTodo(store, user, CreateBody(oldTitle, None), now);
    first := c1.data;
    assert Without([first], 1) == [] by { WithoutSingle(first, 1); }
    var d := TodoController.DeleteTodo(store, user, 1);
    assert store.todos[user.id] == [];
    var c2 := TodoController.CreateTodo(store, user, CreateBody(newTitle, None), now);
    second := c2.data;
    assert store.todos[user.id] == [second];
    assert IndexOf([second], 1) == 0;
    found := TodoController.GetTodoById(store, user, 1);
  }
}
