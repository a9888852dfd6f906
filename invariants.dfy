/** The rules the header comment of src/contexts/TodoProvider.jsx states
    (one open todo, one running time-log entry), with the bookkeeping that
    ties todos to the log, proved to hold in the initial state and to be
    kept by every action its callers send. */
module StateInvariants {
  import opened TodoTypes
  import opened TimeHelpers
  import opened TodoOrder
  import opened TodoReducer
  import opened ReducerProperties

  /** Every todo is stored under its id, every time-log entry under its id. */
  predicate KeyedById(s: State) {
    && IdKeyed(s.todos)
    && (forall k :: k in s.timeLog ==> s.timeLog[k].id == k)
  }

  /** runningTimeItem is an open entry of the log and no other entry is
      open: only one entry can have a timer running at once. */
  predicate OneRunningEntry(s: State) {
    && (s.runningTimeItem.Some? ==>
          && s.runningTimeItem.value.id in s.timeLog
          && s.timeLog[s.runningTimeItem.value.id] == s.runningTimeItem.value
          && s.runningTimeItem.value.stop == None)
    && (forall k :: k in s.timeLog && s.timeLog[k].stop == None ==> s.runningTimeItem == Some(s.timeLog[k]))
  }

  /** A todo's timer runs exactly when the running entry is its own, from
      that entry's start; a stopped todo has no start time. */
  predicate TimerMatchesEntry(s: State) {
    && (forall k :: k in s.todos && s.todos[k].isTimerRunning ==>
          && s.runningTimeItem.Some?
          && s.runningTimeItem.value.todoId == k
          && s.todos[k].startTime == Some(s.runningTimeItem.value.start))
    && (forall k :: k in s.todos && !s.todos[k].isTimerRunning ==> s.todos[k].startTime == None)
    && (s.runningTimeItem.Some? && s.runningTimeItem.value.todoId in s.todos ==>
          s.todos[s.runningTimeItem.value.todoId].isTimerRunning)
  }

  /** A todo has a completion time exactly when it is completed, and a
      completed todo's timer does not run. */
  predicate CompletionConsistent(s: State) {
    forall k :: k in s.todos ==>
      && (s.todos[k].completedAt.Some? <==> s.todos[k].isCompleted)
      && (s.todos[k].isCompleted ==> !s.todos[k].isTimerRunning)
  }

  predicate Inv(s: State) {
    && KeyedById(s)
    && OnlyOpenTodo(s)
    && OneRunningEntry(s)
    && TimerMatchesEntry(s)
    && CompletionConsistent(s)
    && DistinctActive(s.todos)
  }

  /** What the callers guarantee when they dispatch: a payload todo is the
      stored one, generateId() gives an id not in use (a new todo's id is
      also not referenced by the log), the timer button is disabled on
      completed todos, a drag is between active todos, and the clock does
      not read 0 (so a closed entry's stop is truthy). */
  predicate Enabled(s: State, a: Action, env: Env) {
    && Admissible(s, a)
    && match a
       case AddTodo(_) =>
         env.freshId !in s.todos && forall k :: k in s.timeLog ==> s.timeLog[k].todoId != env.freshId
       case SaveTodo(todo, _) => todo.id in s.todos && s.todos[todo.id] == todo
       case CompleteTodo(todo) => todo.id in s.todos && s.todos[todo.id] == todo && RoundMs(env.now) != 0
       case ToggleTimer(todo) =>
         && todo.id in s.todos && s.todos[todo.id] == todo && !todo.isCompleted
         && env.freshId !in s.timeLog && RoundMs(env.now) != 0
       case _ => true
  }

  lemma InitialStateInv()
    ensures Inv(InitialState)
  {
  }

  // ---------------------------------------------------------------------
  // One lemma per action

  // ADD_TODO, one part of the invariant at a time

  /** Storing a new todo under its own id, in list mode, not completed and
      with no timer, keeps every part of the invariant but the ranking, when
      no log entry refers to it. */
  lemma InsertIdleTodo(s: State, t: Todo)
    requires KeyedById(s) && OnlyOpenTodo(s) && CompletionConsistent(s)
    requires TimerMatchesEntry(s) && OneRunningEntry(s)
    requires t.id !in s.todos && t.mode == List && !t.isCompleted && t.completedAt == None
    requires !t.isTimerRunning && t.startTime == None
    requires forall k :: k in s.timeLog ==> s.timeLog[k].todoId != t.id
    ensures var s' := s.(todos := s.todos[t.id := t], titleInput := "");
      KeyedById(s') && OnlyOpenTodo(s') && CompletionConsistent(s') && OneRunningEntry(s') && TimerMatchesEntry(s')
  {
    if s.runningTimeItem.Some? {
      assert s.timeLog[s.runningTimeItem.value.id].todoId != t.id;
    }
  }

  lemma AddKeepsInv(s: State, payload: string, env: Env)
    requires Inv(s) && Enabled(s, AddTodo(payload), env) && Add(s, env).Some?
    ensures Inv(Add(s, env).value)
  {
    var t := NewTodo(env, Trim(s.titleInput), FindTopSortPosition(s.todos) - 1);
    assert Add(s, env).value == s.(todos := s.todos[t.id := t], titleInput := "");
    InsertIdleTodo(s, t);
    AddTodoOnTop(s, env);
  }

  lemma DeleteKeepsInv(s: State, id: Id)
    requires Inv(s)
    ensures Inv(Delete(s, id))
  {
    DeleteTodoKeepsOrder(s, id);
  }

  /** A change that keeps every todo's completion and sortOrder keeps the
      active todos distinct. */
  lemma SameRanking(todos: map<Id, Todo>, todos': map<Id, Todo>)
    requires DistinctActive(todos) && todos'.Keys == todos.Keys
    requires forall k :: k in todos ==>
      todos'[k].isCompleted == todos[k].isCompleted && todos'[k].sortOrder == todos[k].sortOrder
    ensures DistinctActive(todos')
  {
    assert ActiveKeys(todos') == ActiveKeys(todos);
  }

  /** Two maps of todos that agree on everything but title, description,
      mode and sortOrder. */
  predicate SameTimers(todos: map<Id, Todo>, todos': map<Id, Todo>) {
    && todos'.Keys == todos.Keys
    && forall k :: k in todos ==>
         && todos'[k].id == todos[k].id
         && todos'[k].isTimerRunning == todos[k].isTimerRunning
         && todos'[k].startTime == todos[k].startTime
         && todos'[k].isCompleted == todos[k].isCompleted
         && todos'[k].completedAt == todos[k].completedAt
  }

  /** A change of titles, descriptions, modes or sortOrders only, which
      keeps the open todo the only one and the active todos distinct,
      keeps the invariant. */
  lemma SameTimersKeepInv(s: State, s': State)
    requires Inv(s) && SameTimers(s.todos, s'.todos)
    requires s'.timeLog == s.timeLog && s'.runningTimeItem == s.runningTimeItem
    requires OnlyOpenTodo(s') && DistinctActive(s'.todos)
    ensures Inv(s')
  {
  }

  lemma SaveSameTimers(s: State, todo: Todo, data: Patch)
    requires todo.id in s.todos && s.todos[todo.id] == todo
    ensures SameTimers(s.todos, Save(s, todo, data).todos)
    ensures forall k :: k in s.todos ==> Save(s, todo, data).todos[k].sortOrder == s.todos[k].sortOrder
  {
  }

  lemma SaveKeepsInv(s: State, todo: Todo, data: Patch)
    requires Inv(s) && Enabled(s, SaveTodo(todo, data), Env(0, "0", ""))
    ensures Inv(Save(s, todo, data))
  {
    var s' := Save(s, todo, data);
    SaveSameTimers(s, todo, data);
    SaveTodoKeepsOneOpen(s, todo, data);
    SameRanking(s.todos, s'.todos);
    SameTimersKeepInv(s, s');
  }

  // COMPLETE_TODO, one part of the invariant at a time

  lemma CompleteKeyed(s: State, todo: Todo, now: int)
    requires KeyedById(s)
    ensures KeyedById(Complete(s, todo, now))
  {
  }

  lemma CompleteOneOpen(s: State, todo: Todo, now: int)
    requires OnlyOpenTodo(s)
    ensures OnlyOpenTodo(Complete(s, todo, now))
  {
  }

  lemma CompleteOneRunning(s: State, todo: Todo, now: int)
    requires KeyedById(s) && OneRunningEntry(s)
    ensures OneRunningEntry(Complete(s, todo, now))
  {
    var s' := Complete(s, todo, now);
    forall k | k in s'.timeLog && s'.timeLog[k].stop == None
      ensures s'.runningTimeItem == Some(s'.timeLog[k])
    {
      assert k in s.timeLog && s.timeLog[k] == s'.timeLog[k];
    }
  }

  lemma CompleteTimers(s: State, todo: Todo, now: int)
    requires TimerMatchesEntry(s) && CompletionConsistent(s)
    requires todo.id in s.todos && s.todos[todo.id] == todo
    ensures TimerMatchesEntry(Complete(s, todo, now)) && CompletionConsistent(Complete(s, todo, now))
  {
  }

  lemma CompleteKeepsInv(s: State, todo: Todo, env: Env)
    requires Inv(s) && Enabled(s, CompleteTodo(todo), env)
    ensures Inv(Complete(s, todo, env.now))
  {
    CompleteKeyed(s, todo, env.now);
    CompleteOneOpen(s, todo, env.now);
    CompleteOneRunning(s, todo, env.now);
    CompleteTimers(s, todo, env.now);
    CompleteTodoOrder(s, todo, env.now);
  }

  // TOGGLE_TIMER, one part of the invariant at a time

  lemma ToggleKeyed(s: State, todo: Todo, now: int, newTimeItemId: Id)
    requires KeyedById(s)
    ensures KeyedById(Toggle(s, todo, now, newTimeItemId))
  {
  }

  lemma ToggleOneOpen(s: State, todo: Todo, now: int, newTimeItemId: Id)
    requires OnlyOpenTodo(s) && KeyedById(s) && todo.id in s.todos && s.todos[todo.id] == todo
    ensures OnlyOpenTodo(Toggle(s, todo, now, newTimeItemId))
  {
  }

  lemma ToggleStartOneRunning(s: State, todo: Todo, now: int, newTimeItemId: Id)
    requires KeyedById(s) && OneRunningEntry(s) && newTimeItemId !in s.timeLog && !todo.isTimerRunning
    requires TimerMatchesEntry(s) && todo.id in s.todos && s.todos[todo.id] == todo
    ensures OneRunningEntry(Toggle(s, todo, now, newTimeItemId))
  {
    var s' := Toggle(s, todo, now, newTimeItemId);
    forall k | k in s'.timeLog && k != newTimeItemId
      ensures s'.timeLog[k].stop.Some?
    {
      if s.runningTimeItem.None? || k != s.runningTimeItem.value.id {
        assert s'.timeLog[k] == s.timeLog[k];
      }
    }
  }

  lemma ToggleStopOneRunning(s: State, todo: Todo, now: int, newTimeItemId: Id)
    requires KeyedById(s) && OneRunningEntry(s) && todo.isTimerRunning
    requires TimerMatchesEntry(s) && todo.id in s.todos && s.todos[todo.id] == todo
    ensures OneRunningEntry(Toggle(s, todo, now, newTimeItemId))
  {
    var s' := Toggle(s, todo, now, newTimeItemId);
    forall k | k in s'.timeLog
      ensures s'.timeLog[k].stop.Some?
    {
      if k != s.runningTimeItem.value.id {
        assert s.timeLog[k] == s'.timeLog[k];
      }
    }
  }

  lemma ToggleStartTimers(s: State, todo: Todo, now: int, newTimeItemId: Id)
    requires KeyedById(s) && TimerMatchesEntry(s) && CompletionConsistent(s) && !todo.isTimerRunning
    requires todo.id in s.todos && s.todos[todo.id] == todo && !todo.isCompleted
    ensures TimerMatchesEntry(Toggle(s, todo, now, newTimeItemId)) && CompletionConsistent(Toggle(s, todo, now, newTimeItemId))
  {
    var s' := Toggle(s, todo, now, newTimeItemId);
    forall k | k in s'.todos && k != todo.id
      ensures !s'.todos[k].isTimerRunning
    {
      if s.runningTimeItem.None? || k != s.runningTimeItem.value.todoId {
        assert s'.todos[k] == s.todos[k];
      }
    }
  }

  lemma ToggleStopTimers(s: State, todo: Todo, now: int, newTimeItemId: Id)
    requires KeyedById(s) && TimerMatchesEntry(s) && CompletionConsistent(s) && todo.isTimerRunning
    requires todo.id in s.todos && s.todos[todo.id] == todo
    ensures TimerMatchesEntry(Toggle(s, todo, now, newTimeItemId)) && CompletionConsistent(Toggle(s, todo, now, newTimeItemId))
  {
    var s' := Toggle(s, todo, now, newTimeItemId);
    forall k | k in s'.todos
      ensures !s'.todos[k].isTimerRunning
    {
      if k != todo.id {
        assert s'.todos[k] == s.todos[k];
      }
    }
  }

  /** TOGGLE_TIMER changes no todo's completion or sortOrder. */
  lemma ToggleRanking(s: State, todo: Todo, now: int, newTimeItemId: Id)
    requires DistinctActive(s.todos) && todo.id in s.todos && s.todos[todo.id] == todo
    ensures DistinctActive(Toggle(s, todo, now, newTimeItemId).todos)
  {
    var todos' := Toggle(s, todo, now, newTimeItemId).todos;
    assert todos'.Keys == s.todos.Keys;
    forall k | k in s.todos
      ensures todos'[k].isCompleted == s.todos[k].isCompleted && todos'[k].sortOrder == s.todos[k].sortOrder
    {
    }
    SameRanking(s.todos, todos');
  }

  lemma ToggleKeepsInv(s: State, todo: Todo, env: Env)
    requires Inv(s) && Enabled(s, ToggleTimer(todo), env)
    ensures Inv(Toggle(s, todo, env.now, env.freshId))
  {
    var s' := Toggle(s, todo, env.now, env.freshId);
    ToggleKeyed(s, todo, env.now, env.freshId);
    ToggleOneOpen(s, todo, env.now, env.freshId);
    if todo.isTimerRunning {
      ToggleStopOneRunning(s, todo, env.now, env.freshId);
      ToggleStopTimers(s, todo, env.now, env.freshId);
    } else {
      ToggleStartOneRunning(s, todo, env.now, env.freshId);
      ToggleStartTimers(s, todo, env.now, env.freshId);
    }
    ToggleRanking(s, todo, env.now, env.freshId);
  }

  lemma SortKeepsInv(s: State, dragged: Todo, droppedOn: Todo)
    requires Inv(s) && Admissible(s, SortTodos(dragged, droppedOn))
    ensures Inv(s.(todos := SortedTodos(s.todos, dragged.id, droppedOn.id)))
  {
    var s' := s.(todos := SortedTodos(s.todos, dragged.id, droppedOn.id));
    SortChangesOnlyActiveOrder(s.todos, dragged.id, droppedOn.id);
    if dragged.id != droppedOn.id {
      SortRenumbersActive(s.todos, dragged.id, droppedOn.id);
    }
    assert SameTimers(s.todos, s'.todos);
    SameTimersKeepInv(s, s');
  }

  /** Every action a caller may send keeps the invariant, whenever the
      reducer returns a state. */
  lemma ReduceKeepsInv(s: State, a: Action, env: Env)
    requires Inv(s) && Enabled(s, a, env) && Reduce(s, a, env).Some?
    ensures Inv(Reduce(s, a, env).value)
  {
    match a
    case SetTodoTitleInput(_) =>
    case AddTodo(title) => AddKeepsInv(s, title, env);
    case DeleteTodo(id) => DeleteKeepsInv(s, id);
    case SaveTodo(todo, data) => SaveKeepsInv(s, todo, data);
    case CompleteTodo(todo) => CompleteKeepsInv(s, todo, env);
    case ToggleTimer(todo) => ToggleKeepsInv(s, todo, env);
    case SortTodos(dragged, droppedOn) => SortKeepsInv(s, dragged, droppedOn);
    case SetSwipedTodo(_) =>
    case UpdateTimeItem(_) =>
    case DeleteTimeItem(_) =>
  }

  // ---------------------------------------------------------------------
  // Runs of the reducer

  /** One dispatch: the action and what the environment supplied. */
  datatype Step = Step(action: Action, env: Env)

  /** Every step of `steps` is one a caller may send in the state it meets,
      and the reducer returns a state for it (an undefined state breaks the
      app at its next render, so a run stops there). */
  ghost predicate Runs(s: State, steps: seq<Step>)
    decreases |steps|
  {
    steps == [] || (
      && Enabled(s, steps[0].action, steps[0].env)
      && Reduce(s, steps[0].action, steps[0].env).Some?
      && Runs(Reduce(s, steps[0].action, steps[0].env).value, steps[1..]))
  }

  /** The state after dispatching `steps` in order. */
  ghost function Run(s: State, steps: seq<Step>): State
    requires Runs(s, steps)
    decreases |steps|
  {
    if steps == [] then s else Run(Reduce(s, steps[0].action, steps[0].env).value, steps[1..])
  }

  lemma {:induction false} RunKeepsInv(s: State, steps: seq<Step>)
    requires Inv(s) && Runs(s, steps)
    ensures Inv(Run(s, steps))
    decreases |steps|
  {
    if steps != [] {
      ReduceKeepsInv(s, steps[0].action, steps[0].env);
      RunKeepsInv(Reduce(s, steps[0].action, steps[0].env).value, steps[1..]);
    }
  }

  /** Every state the app reaches from initialState keeps the invariant. */
  lemma ReachableStatesKeepInv(steps: seq<Step>)
    requires Runs(InitialState, steps)
    ensures Inv(Run(InitialState, steps))
  {
    InitialStateInv();
    RunKeepsInv(InitialState, steps);
  }

  /** Without a SET_TODO_TITLE_INPUT, which no caller sends, the title
      input stays '', so every ADD_TODO returns undefined and a run can
      never add a todo: the todos a run ends with were all there before. */
  lemma {:induction false} NoInputNoNewTodos(s: State, steps: seq<Step>)
    requires s.titleInput == "" && Runs(s, steps)
    requires forall i :: 0 <= i < |steps| ==> !steps[i].action.SetTodoTitleInput?
    ensures Run(s, steps).titleInput == ""
    ensures Run(s, steps).todos.Keys <= s.todos.Keys
    decreases |steps|
  {
    if steps != [] {
      var a, env := steps[0].action, steps[0].env;
      var s' := Reduce(s, a, env).value;
      ReduceFrames(s, a, env);
      assert s'.todos.Keys <= s.todos.Keys by {
        match a
        case SortTodos(dragged, droppedOn) => SortChangesOnlyActiveOrder(s.todos, dragged.id, droppedOn.id);
        case _ =>
      }
      assert forall i :: 0 <= i < |steps[1..]| ==> steps[1..][i] == steps[i + 1];
      NoInputNoNewTodos(s', steps[1..]);
    }
  }
}
