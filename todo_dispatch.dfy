/** todoReducer as src/contexts/TodoProvider.jsx runs it: each case copies
    the maps of the state (`new Map(state.todos)`), changes the copy one
    `set` or `delete` at a time, and returns a new state built from the
    copies. Each case is proved to return what the case function of
    TodoReducer describes, so every property proved of those functions
    holds of these methods. */
module TodoDispatch {
  import opened TodoTypes
  import opened TimeHelpers
  import opened TodoOrder
  import opened TodoReducer

  /** A value with the three properties FindTopSortPosition promises is
      FindTopSortPosition: the least active sortOrder, or 1. */
  lemma TopSortPositionUnique(todos: map<Id, Todo>, p: int)
    requires ActiveKeys(todos) == {} ==> p == 1
    requires forall k :: k in ActiveKeys(todos) ==> p <= todos[k].sortOrder
    requires ActiveKeys(todos) != {} ==> exists k :: k in ActiveKeys(todos) && todos[k].sortOrder == p
    ensures p == FindTopSortPosition(todos)
  {
    var q := FindTopSortPosition(todos);
    if ActiveKeys(todos) != {} {
      var j :| j in ActiveKeys(todos) && todos[j].sortOrder == p;
      var k :| k in ActiveKeys(todos) && todos[k].sortOrder == q;
      assert q <= todos[j].sortOrder && p <= todos[k].sortOrder;
    }
  }

  /** findTopSortPosition([...todos.values()]): the spread walks the map's
      values, the filter keeps the active todos, and Math.min takes the
      least sortOrder among them, 1 when there is none. */
  method TopSortPosition(todos: map<Id, Todo>) returns (minSortOrder: int)
    ensures minSortOrder == FindTopSortPosition(todos)
  {
    var pending := todos.Keys;
    var found := false;
    minSortOrder := 1;
    while pending != {}
      invariant pending <= todos.Keys
      invariant found <==> exists k :: k in ActiveKeys(todos) && k !in pending
      invariant !found ==> minSortOrder == 1
      invariant found ==> exists k :: k in ActiveKeys(todos) && k !in pending && todos[k].sortOrder == minSortOrder
      invariant forall k :: k in ActiveKeys(todos) && k !in pending ==> minSortOrder <= todos[k].sortOrder
      decreases pending
    {
      var k :| k in pending;
      if !todos[k].isCompleted && (!found || todos[k].sortOrder < minSortOrder) {
        minSortOrder := todos[k].sortOrder;
        found := true;
      }
      pending := pending - {k};
    }
    TopSortPositionUnique(todos, minSortOrder);
  }

  /** The ADD_TODO case: trims state.titleInput, returns undefined (None)
      when nothing is left, and otherwise sets the new todo in a copy of
      the todos and clears the input. */
  method AddTodoCase(state: State, env: Env) returns (r: Option<State>)
    ensures r == Add(state, env)
  {
    var title := Trim(state.titleInput);
    if title == [] {
      return None;
    }
    var top := TopSortPosition(state.todos);
    var newTodos := state.todos;
    newTodos := newTodos[env.freshId := NewTodo(env, title, top - 1)];
    r := Some(state.(todos := newTodos, titleInput := ""));
  }

  /** The DELETE_TODO case: deletes the id from a copy of the todos. */
  method DeleteTodoCase(state: State, id: Id) returns (r: State)
    ensures r == Delete(state, id)
  {
    var newTodos := state.todos;
    newTodos := newTodos - {id};
    r := state.(todos := newTodos);
  }

  /** The SAVE_TODO case: puts a different open todo, if it is stored,
      back in list mode, then sets the merged payload todo. */
  method SaveTodoCase(state: State, todo: Todo, data: Patch) returns (r: State)
    ensures r == Save(state, todo, data)
  {
    var newTodos := state.todos;
    if state.openTodoId.Some? && state.openTodoId.value != todo.id {
      var openId := state.openTodoId.value;
      if openId in newTodos {
        var openTodo := newTodos[openId];
        newTodos := newTodos[openId := openTodo.(mode := List)];
      }
    }
    newTodos := newTodos[todo.id := Merge(todo, data)];
    r := state.(todos := newTodos, openTodoId := if data.mode != Some(List) then Some(todo.id) else None);
  }

  /** The COMPLETE_TODO case at clock reading `now`. The top position is
      computed only when the todo is being re-opened, as the source's
      conditional expression does. */
  method CompleteTodoCase(state: State, todo: Todo, now: int) returns (r: State)
    ensures r == Complete(state, todo, now)
  {
    var newTodos := state.todos;
    var currentTime := RoundMs(now);
    var isCompleted := !todo.isCompleted;
    var baseTodo := if todo.isTimerRunning then StopTimer(todo, currentTime) else todo;
    var sortOrder := todo.sortOrder;
    if !isCompleted {
      var top := TopSortPosition(newTodos);
      sortOrder := top - 1;
    }
    newTodos := newTodos[todo.id := baseTodo.(
      isCompleted := isCompleted,
      completedAt := if isCompleted then Some(currentTime) else None,
      sortOrder := sortOrder,
      mode := List)];
    if isCompleted && state.runningTimeItem.Some? {
      var newTimeLog := state.timeLog;
      var item := state.runningTimeItem.value;
      if item.todoId == todo.id {
        newTimeLog := newTimeLog[item.id := item.(stop := Some(currentTime))];
        return state.(todos := newTodos, timeLog := newTimeLog, runningTimeItem := None);
      }
    }
    r := state.(todos := newTodos);
  }

  /** The TOGGLE_TIMER case at clock reading `now`, with `newTimeItemId`
      from generateId(). */
  method ToggleTimerCase(state: State, todo: Todo, now: int, newTimeItemId: Id) returns (r: State)
    ensures r == Toggle(state, todo, now, newTimeItemId)
  {
    var currentTime := RoundMs(now);
    var newTodos := state.todos;
    var newTimeLog := state.timeLog;
    var isStarting := !todo.isTimerRunning;

    if isStarting && state.runningTimeItem.Some? {
      var running := state.runningTimeItem.value;
      var runningTodoId := running.todoId;
      if runningTodoId != todo.id {
        if runningTodoId in newTodos {
          var runningTodo := newTodos[runningTodoId];
          newTodos := newTodos[runningTodoId := StopTimer(runningTodo, currentTime)];
        }
        newTimeLog := newTimeLog[running.id := running.(stop := Some(currentTime))];
      }
    }

    if isStarting {
      newTodos := newTodos[todo.id := todo.(isTimerRunning := true, startTime := Some(currentTime))];
      var newTimeItem := TimeLogItem(newTimeItemId, todo.id, currentTime, None);
      newTimeLog := newTimeLog[newTimeItemId := newTimeItem];
      return state.(todos := newTodos, timeLog := newTimeLog, runningTimeItem := Some(newTimeItem));
    }

    newTodos := newTodos[todo.id := StopTimer(todo, currentTime)];
    if state.runningTimeItem.Some? {
      var running := state.runningTimeItem.value;
      newTimeLog := newTimeLog[running.id := running.(stop := Some(currentTime))];
    }
    r := state.(todos := newTodos, timeLog := newTimeLog, runningTimeItem := None);
  }

  /** todoReducer(state, action): one case per action type, the default
      returning the state it was given. */
  method Dispatch(state: State, action: Action, env: Env) returns (r: Option<State>)
    requires Admissible(state, action)
    ensures r == Reduce(state, action, env)
  {
    match action {
      case SetTodoTitleInput(text) =>
        r := Some(state.(titleInput := text));
      case AddTodo(_) =>
        r := AddTodoCase(state, env);
      case DeleteTodo(id) =>
        var s := DeleteTodoCase(state, id);
        r := Some(s);
      case SaveTodo(todo, data) =>
        var s := SaveTodoCase(state, todo, data);
        r := Some(s);
      case CompleteTodo(todo) =>
        var s := CompleteTodoCase(state, todo, env.now);
        r := Some(s);
      case ToggleTimer(todo) =>
        var s := ToggleTimerCase(state, todo, env.now, env.freshId);
        r := Some(s);
      case SortTodos(dragged, droppedOn) =>
        var s := Sort(state, dragged, droppedOn);
        r := Some(s);
      case SetSwipedTodo(swiped) =>
        r := Some(state.(swipedTodo := swiped));
      case UpdateTimeItem(_) =>
        r := Some(state);
      case DeleteTimeItem(_) =>
        r := Some(state);
    }
  }
}
