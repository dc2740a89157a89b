/** The handlers of `src/controllers/todoController.js`. Each works in the partition of the
    authenticated user `user.id` (set by the gate), never in one named by the request body. */
module TodoController {
  import opened Wrappers
  import opened Clock
  import opened Errors
  import opened Jwt
  import opened TodoModel

  const NotFound := HttpError(404, "Todo not found")
  const CreatedMessage := "Todo created successfully"
  const UpdatedMessage := "Todo updated successfully"
  const DeletedMessage := "Todo deleted successfully"

  /** The body of a create request; `description` may be absent. */
  datatype CreateBody = CreateBody(title: string, description: Option<string>)

  /** The body of a PATCH request; each field may be absent (`undefined`). */
  datatype UpdateBody = UpdateBody(title: Option<string>, description: Option<string>,
                                   completed: Option<bool>)

  /** The list response: the todos and their `count`. */
  datatype TodoList = TodoList(todos: seq<Todo>, count: int)

  /** POST: create a todo in the caller's partition and answer 201 with it. */
  method CreateTodo(store: TodoStore, user: Claims, body: CreateBody, now: Timestamp)
    returns (r: Reply<Todo>)
    requires store.Valid()
    modifies store
    ensures store.Valid()
    ensures var p := Partition(old(store.todos), user.id);
      && r.Ok? && r.status == 201 && r.message == Some(CreatedMessage)
      && r.data == Todo(|p| + 1, user.id, body.title, body.description.GetOr(""), false, now, now)
      && store.todos == old(store.todos)[user.id := p + [r.data]]
    ensures OthersUnchanged(old(store.todos), store.todos, user.id)
  {
    var todo := store.CreateTodo(user.id, body.title, body.description, now);
    r := Ok(201, Some(CreatedMessage), todo);
  }

  /** GET all: the caller's todos in insertion order, with their count. */
  method GetAllTodos(store: TodoStore, user: Claims) returns (r: Reply<TodoList>)
    ensures r.Ok? && r.status == 200 && r.message == None
    ensures r.data.todos == Partition(store.todos, user.id)
    ensures r.data.count == |r.data.todos|
  {
    var userTodos := store.GetTodosByUserId(user.id);
    r := Ok(200, None, TodoList(userTodos, |userTodos|));
  }

  /** GET one: 404 exactly when the caller's partition has no todo with the id. */
  method GetTodoById(store: TodoStore, user: Claims, id: int) returns (r: Reply<Todo>)
    ensures r.Err? <==> forall t | t in Partition(store.todos, user.id) :: t.id != id
    ensures r.Err? ==> r.error == NotFound
    ensures r.Ok? ==> r.status == 200 && r.message == None
    ensures r.Ok? ==> Lookup(Partition(store.todos, user.id), id) == Some(r.data)
  {
    var todo := store.GetTodoById(user.id, id);
    if todo.None? {
      return Err(NotFound);
    }
    r := Ok(200, None, todo.value);
  }

  /** PATCH: 404 with the store untouched when the todo is absent; otherwise the update
      object holds exactly the fields present in the body and the first matching todo is
      replaced by the merge. */
  method UpdateTodo(store: TodoStore, user: Claims, id: int, body: UpdateBody, now: Timestamp)
    returns (r: Reply<Todo>)
    requires store.Valid()
    modifies store
    ensures store.Valid()
    ensures var p := Partition(old(store.todos), user.id); var i := IndexOf(p, id);
      if i < 0 then
        r == Err(NotFound) && store.todos == old(store.todos)
      else
        var updated := Merge(p[i], TodoUpdates(body.title, body.description, body.completed), now);
        r == Ok(200, Some(UpdatedMessage), updated) &&
        store.todos == old(store.todos)[user.id := p[i := updated]]
    ensures OthersUnchanged(old(store.todos), store.todos, user.id)
  {
    var existing := store.GetTodoById(user.id, id);
    if existing.None? {
      return Err(NotFound);
    }
    var updates := TodoUpdates(None, None, None);
    if body.title.Some? {
      updates := updates.(title := body.title);
    }
    if body.description.Some? {
      updates := updates.(description := body.description);
    }
    if body.completed.Some? {
      updates := updates.(completed := body.completed);
    }
    var updated := store.UpdateTodo(user.id, id, updates, now);
    r := Ok(200, Some(UpdatedMessage), updated.value);
  }

  /** DELETE: 404 with the store untouched when the todo is absent; otherwise every todo
      with the id leaves the caller's partition and the answer is a success. */
  method DeleteTodo(store: TodoStore, user: Claims, id: int) returns (r: Reply<()>)
    requires store.Valid()
    modifies store
    ensures store.Valid()
    ensures var p := Partition(old(store.todos), user.id);
      if IndexOf(p, id) < 0 then
        r == Err(NotFound) && store.todos == old(store.todos)
      else
        r == Ok(200, Some(DeletedMessage), ()) &&
        store.todos == old(store.todos)[user.id := Without(p, id)] &&
        |Without(p, id)| < |p|
    ensures OthersUnchanged(old(store.todos), store.todos, user.id)
  {
    var todo := store.GetTodoById(user.id, id);
    if todo.None? {
      return Err(NotFound);
    }
    ghost var p := store.todos[user.id];
    assert p[IndexOf(p, id)].id == id;
    WithoutShrinks(p, id);
    var removed := store.DeleteTodo(user.id, id);
    r := Ok(200, Some(DeletedMessage), ());
  }
}
