/** The per-user in-memory todo store of `src/models/Todo.js`: a map from user id to that
    user's array of todos, updated in place. */
module TodoModel {
  import opened Wrappers
  import opened Clock
  import opened Sequences

  datatype Todo = Todo(id: int, userId: int, title: string, description: string,
                       completed: bool, createdAt: Timestamp, updatedAt: Timestamp)

  /** The fields a partial update may carry; `None` means the field is not present. */
  datatype TodoUpdates = TodoUpdates(title: Option<string>, description: Option<string>,
                                     completed: Option<bool>)

  /** The whole store: user id to that user's todos, in insertion order. */
  type Todos = map<int, seq<Todo>>

  /** A user's partition, empty when the user has none (`todos[userId] || []`). */
  function Partition(todos: Todos, userId: int): (r: seq<Todo>)
    ensures userId in todos ==> r == todos[userId]
    ensures userId !in todos ==> r == []
  {
    if userId in todos then todos[userId] else []
  }

  /** Every todo in partition `p` belongs to `userId` and has a positive id. */
  predicate Owned(p: seq<Todo>, userId: int)
  {
    forall i | 0 <= i < |p| :: p[i].userId == userId && p[i].id >= 1
  }

  /** Every partition other than `userId`'s is present and equal in both stores, or absent in both. */
  ghost predicate OthersUnchanged(before: Todos, after: Todos, userId: int)
  {
    forall u | u != userId :: (u in after <==> u in before) && (u in after ==> after[u] == before[u])
  }

  /** `{ ...todo, ...updates, updatedAt: now }` for the three fields an update may carry:
      a present field overwrites, an absent one keeps its old value; identity, owner and
      creation time never change, and `updatedAt` is always the new time. */
  function Merge(t: Todo, u: TodoUpdates, now: Timestamp): (r: Todo)
    ensures r.id == t.id && r.userId == t.userId && r.createdAt == t.createdAt && r.updatedAt == now
    ensures u.title.Some? ==> r.title == u.title.value
    ensures u.title.None? ==> r.title == t.title
    ensures u.description.Some? ==> r.description == u.description.value
    ensures u.description.None? ==> r.description == t.description
    ensures u.completed.Some? ==> r.completed == u.completed.value
    ensures u.completed.None? ==> r.completed == t.completed
  {
    t.(title := u.title.GetOr(t.title),
       description := u.description.GetOr(t.description),
       completed := u.completed.GetOr(t.completed),
       updatedAt := now)
  }

  /** An update that carries no field changes only `updatedAt`. */
  lemma EmptyUpdateTouchesOnlyUpdatedAt(t: Todo, now: Timestamp)
    ensures Merge(t, TodoUpdates(None, None, None), now) == t.(updatedAt := now)
  {
  }

  /** `findIndex` by id: the first position holding `id`, or -1. */
  function IndexOf(p: seq<Todo>, id: int): (i: int)
    ensures -1 <= i < |p|
    ensures 0 <= i ==> p[i].id == id
    ensures forall j | 0 <= j < |p| && (i < 0 || j < i) :: p[j].id != id
  {
    FirstIndex(p, (t: Todo) => t.id == id)
  }

  /** `find` by id: the first todo holding `id`. */
  function Lookup(p: seq<Todo>, id: int): (r: Option<Todo>)
    ensures r.None? <==> forall j | 0 <= j < |p| :: p[j].id != id
    ensures r.Some? ==> r.value.id == id && r.value in p
    ensures r.Some? ==> exists i | 0 <= i < |p| :: p[i] == r.value && forall j | 0 <= j < i :: p[j].id != id
  {
    var i := IndexOf(p, id);
    if i < 0 then None else Some(p[i])
  }

  /** `filter(t => t.id !== id)`: the partition without any todo holding `id`
      (that it keeps only todos of the partition is `WithoutSubset`). */
  function Without(p: seq<Todo>, id: int): (r: seq<Todo>)
    ensures |r| <= |p|
    ensures forall k | 0 <= k < |r| :: r[k].id != id
  {
    if |p| == 0 then []
    else Without(p[..|p| - 1], id) + (if p[|p| - 1].id == id then [] else [p[|p| - 1]])
  }

  /** Filtering distributes over concatenation, so the kept todos stay in their order. */
  lemma {:induction false} WithoutConcat(a: seq<Todo>, b: seq<Todo>, id: int)
    ensures Without(a + b, id) == Without(a, id) + Without(b, id)
    decreases |b|
  {
    if |b| == 0 {
      assert a + b == a;
    } else {
      var b' := b[..|b| - 1];
      assert (a + b)[..|a + b| - 1] == a + b';
      assert (a + b)[|a + b| - 1] == b[|b| - 1];
      WithoutConcat(a, b', id);
    }
  }

  /** A one-todo partition is kept iff its todo does not hold `id`. */
  lemma WithoutSingle(t: Todo, id: int)
    ensures Without([t], id) == if t.id == id then [] else [t]
  {
    assert [t][..0] == [];
  }

  /** The filter shortens the partition exactly when some todo holds `id`, and otherwise
      leaves it as it was. */
  lemma {:induction false} WithoutShrinks(p: seq<Todo>, id: int)
    ensures |Without(p, id)| < |p| <==> exists j | 0 <= j < |p| :: p[j].id == id
    ensures |Without(p, id)| == |p| ==> Without(p, id) == p
  {
    if |p| > 0 {
      var init, last := p[..|p| - 1], p[|p| - 1];
      WithoutShrinks(init, id);
      assert p == init + [last];
      HoldsIdSnoc(init, last, id);
    }
  }

  /** The filter only drops todos: everything it keeps was in the partition. */
  lemma {:induction false} WithoutSubset(p: seq<Todo>, id: int)
    ensures forall t | t in Without(p, id) :: t in p
  {
    if |p| > 0 {
      var init, last := p[..|p| - 1], p[|p| - 1];
      WithoutSubset(init, id);
      assert p == init + [last];
    }
  }

  /** A partition extended by one todo holds `id` iff the old partition or the new todo does. */
  lemma HoldsIdSnoc(init: seq<Todo>, last: Todo, id: int)
    ensures (exists j | 0 <= j < |init + [last]| :: (init + [last])[j].id == id) <==>
      (exists j | 0 <= j < |init| :: init[j].id == id) || last.id == id
  {
    var p := init + [last];
    if exists j | 0 <= j < |p| :: p[j].id == id {
      var j :| 0 <= j < |p| && p[j].id == id;
      if j < |init| {
        assert init[j] == p[j];
      }
    }
    if exists j | 0 <= j < |init| :: init[j].id == id {
      var j :| 0 <= j < |init| && init[j].id == id;
      assert p[j] == init[j];
    }
    if last.id == id {
      assert p[|init|] == last;
    }
  }

  /** The in-memory store of todos. */
  class TodoStore {
    var todos: Todos

    /** Every todo sits in its owner's partition and has a positive id. */
    ghost predicate Valid()
      reads this
    {
      forall u | u in todos :: Owned(todos[u], u)
    }

    constructor ()
      ensures Valid() && todos == map[]
    {
      todos := map[];
    }

    /** `createTodo`: append one todo at the end of the owner's partition, creating the
        partition if missing; its id is the partition's length before the insertion plus one. */
    method CreateTodo(userId: int, title: string, description: Option<string>, now: Timestamp)
      returns (t: Todo)
      requires Valid()
      modifies this
      ensures Valid()
      ensures t.id == |Partition(old(todos), userId)| + 1 && t.userId == userId && t.title == title
      ensures t.description == description.GetOr("") && !t.completed
      ensures t.createdAt == now && t.updatedAt == now
      ensures todos == old(todos)[userId := Partition(old(todos), userId) + [t]]
      ensures OthersUnchanged(old(todos), todos, userId)
    {
      if userId !in todos {
        todos := todos[userId := []];
      }
      t := Todo(|todos[userId]| + 1, userId, title, description.GetOr(""), false, now, now);
      todos := todos[userId := todos[userId] + [t]];
    }

    /** `getTodos`: the whole map. */
    method GetTodos() returns (r: Todos)
      ensures r == todos
    {
      r := todos;
    }

    /** `getTodosByUserId`: the user's partition in insertion order, empty if absent. */
    method GetTodosByUserId(userId: int) returns (r: seq<Todo>)
      ensures userId !in todos ==> r == []
      ensures userId in todos ==> r == todos[userId]
    {
      if userId in todos {
        r := todos[userId];
      } else {
        r := [];
      }
    }

    /** `getTodoById`: nothing when the partition is absent, else the first todo with the id. */
    method GetTodoById(userId: int, todoId: int) returns (r: Option<Todo>)
      ensures userId !in todos ==> r == None
      ensures r == Lookup(Partition(todos, userId), todoId)
    {
      if userId !in todos {
        return None;
      }
      var i := FindIndex(todos[userId], todoId);
      r := if i < 0 then None else Some(todos[userId][i]);
    }

    /** `updateTodo`: replace the first todo with the id by its merge with `updates`, in place;
        nothing changes when the partition or the id is absent. */
    method UpdateTodo(userId: int, todoId: int, updates: TodoUpdates, now: Timestamp)
      returns (r: Option<Todo>)
      requires Valid()
      modifies this
      ensures Valid()
      ensures var p := Partition(old(todos), userId); var i := IndexOf(p, todoId);
        if userId !in old(todos) || i < 0 then
          r == None && todos == old(todos)
        else
          r == Some(Merge(p[i], updates, now)) && todos == old(todos)[userId := p[i := r.value]]
      ensures OthersUnchanged(old(todos), todos, userId)
    {
      if userId !in todos {
        return None;
      }
      var i := FindIndex(todos[userId], todoId);
      if i == -1 {
        return None;
      }
      var updated := Merge(todos[userId][i], updates, now);
      todos := todos[userId := todos[userId][i := updated]];
      r := Some(updated);
    }

    /** `deleteTodo`: drop every todo with the id from the partition, keeping the order of the
        rest; report whether the partition got shorter, and `false` when it is absent. */
    method DeleteTodo(userId: int, todoId: int) returns (removed: bool)
      requires Valid()
      modifies this
      ensures Valid()
      ensures userId !in old(todos) ==> !removed && todos == old(todos)
      ensures userId in old(todos) ==>
        todos == old(todos)[userId := Without(old(todos)[userId], todoId)] &&
        removed == (|todos[userId]| < |old(todos)[userId]|)
      ensures OthersUnchanged(old(todos), todos, userId)
    {
      if userId !in todos {
        return false;
      }
      var initialLength := |todos[userId]|;
      var kept := FilterOut(todos[userId], todoId);
      ghost var p := todos[userId];
      WithoutSubset(p, todoId);
      forall i | 0 <= i < |kept|
        ensures kept[i].userId == userId && kept[i].id >= 1
      {
        assert kept[i] in p;
      }
      todos := todos[userId := kept];
      removed := |todos[userId]| < initialLength;
    }

    /** `deleteUserTodos`: remove the user's partition and nothing else. */
    method DeleteUserTodos(userId: int)
      requires Valid()
      modifies this
      ensures Valid()
      ensures todos == old(todos) - {userId}
      ensures Partition(todos, userId) == []
      ensures OthersUnchanged(old(todos), todos, userId)
    {
      todos := todos - {userId};
    }
  }

  /** The `findIndex` scan: the first position holding `id`, or -1. */
  method FindIndex(p: seq<Todo>, id: int) returns (i: int)
    ensures i == IndexOf(p, id)
  {
    i := 0;
    while i < |p|
      invariant 0 <= i <= |p|
      invariant forall j | 0 <= j < i :: p[j].id != id
    {
      if p[i].id == id {
        return;
      }
      i := i + 1;
    }
    i := -1;
  }

  /** The `filter` pass: a new array of the todos that do not hold `id`, in order. */
  method FilterOut(p: seq<Todo>, id: int) returns (r: seq<Todo>)
    ensures r == Without(p, id)
  {
    r := [];
    var k := 0;
    while k < |p|
      invariant 0 <= k <= |p|
      invariant r == Without(p[..k], id)
    {
      assert p[..k + 1][..k] == p[..k];
      if p[k].id != id {
        r := r + [p[k]];
      }
      k := k + 1;
    }
    assert p[..k] == p;
  }

  /** A todo whose id differs survives the filter. */
  lemma WithoutKeeps(p: seq<Todo>, id: int, i: int)
    requires 0 <= i < |p| && p[i].id != id
    ensures p[i] in Without(p, id)
  {
    assert p == p[..i] + [p[i]] + p[i + 1..];
    WithoutConcat(p[..i] + [p[i]], p[i + 1..], id);
    WithoutConcat(p[..i], [p[i]], id);
    WithoutSingle(p[i], id);
  }

  /** When exactly one todo holds `id`, the filter removes exactly one todo. */
  lemma {:induction false} WithoutOneMatch(p: seq<Todo>, id: int, i: int)
    requires 0 <= i < |p| && p[i].id == id
    requires forall j | 0 <= j < |p| && j != i :: p[j].id != id
    ensures |Without(p, id)| == |p| - 1
  {
    var init, last := p[..|p| - 1], p[|p| - 1];
    assert Without(p, id) == Without(init, id) + (if last.id == id then [] else [last]);
    if i == |p| - 1 {
      WithoutShrinks(init, id);
      assert forall j | 0 <= j < |init| :: init[j] == p[j];
    } else {
      WithoutOneMatch(init, id, i);
    }
  }

  /** Ids are not stable under deletion. In a partition holding ids 1..n (as it does while
      nothing has been deleted), deleting any id k < n removes one todo, so the next create
      is given id n, which the last todo still holds. A lookup of that id then finds the
      older todo, never the one just created. */
  lemma IdReuseAfterDelete(p: seq<Todo>, k: int, t: Todo)
    requires forall i | 0 <= i < |p| :: p[i].id == i + 1
    requires 1 <= k < |p|
    requires t.id == |Without(p, k)| + 1
    ensures |Without(p, k)| == |p| - 1
    ensures p[|p| - 1] in Without(p, k) && p[|p| - 1].id == t.id
    ensures Lookup(Without(p, k) + [t], t.id) == Some(p[|p| - 1])
  {
    var n := |p|;
    WithoutOneMatch(p, k, k - 1);
    WithoutKeeps(p, k, n - 1);
    WithoutSubset(p, k);
    var q := Without(p, k);
    forall y | y in q && y.id == n
      ensures y == p[n - 1]
    {
      var m :| 0 <= m < n && p[m] == y;
    }
    LookupAfterAppend(q, t, p[n - 1]);
  }

  /** When `x` is the only todo of `q` holding an id, appending another todo with that id
      does not change what a lookup of the id finds. */
  lemma LookupAfterAppend(q: seq<Todo>, t: Todo, x: Todo)
    requires x in q && x.id == t.id
    requires forall y | y in q && y.id == t.id :: y == x
    ensures Lookup(q + [t], t.id) == Some(x)
  {
    var j :| 0 <= j < |q| && q[j] == x;
    var qt := q + [t];
    assert qt[j].id == t.id;
    var i := IndexOf(qt, t.id);
    assert 0 <= i <= j;
    assert qt[i] == q[i];
  }
}
