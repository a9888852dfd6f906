/** What each case of todoReducer promises, proved about the case functions
    of TodoReducer: what changes, what stays, and where a todo lands in the
    active order. */
module ReducerProperties {
  import opened TodoTypes
  import opened TimeHelpers
  import opened TodoOrder
  import opened TodoReducer

  predicate IsBlank(text: string) {
    forall i :: 0 <= i < |text| ==> IsJsWhitespace(text[i])
  }

  // ---------------------------------------------------------------------
  // ADD_TODO

  /** ADD_TODO takes its title from state.titleInput and never reads the
      payload: two ADD_TODO actions with any payloads give the same result,
      and from a state whose input is '' (the initial state, and every state
      reached without a SET_TODO_TITLE_INPUT) the reducer returns undefined. */
  lemma AddTodoIgnoresPayload(s: State, p1: string, p2: string, env: Env)
    ensures Reduce(s, AddTodo(p1), env) == Reduce(s, AddTodo(p2), env)
    ensures s.titleInput == "" ==> Reduce(s, AddTodo(p1), env) == None
  {
  }

  /** A title input that trims to nothing, i.e. is all whitespace, makes
      ADD_TODO return undefined rather than the state; any other input adds
      a todo. */
  lemma AddTodoBlankIsUndefined(s: State, env: Env)
    ensures Add(s, env) == None <==> IsBlank(s.titleInput)
  {
    TrimEmptyIffAllWhitespace(s.titleInput);
  }

  /** ADD_TODO on a non-blank input adds exactly one todo, under the fresh
      id, with the trimmed input as title, an empty description, in list
      mode, stopped, with nothing spent and not completed; existing todos
      are unchanged, the input is cleared and nothing else changes. */
  lemma AddTodoSpec(s: State, env: Env)
    requires env.freshId !in s.todos && !IsBlank(s.titleInput)
    ensures Add(s, env).Some?
    ensures
      var s' := Add(s, env).value;
      && s'.todos.Keys == s.todos.Keys + {env.freshId}
      && (forall k :: k in s.todos ==> s'.todos[k] == s.todos[k])
      && var t := s'.todos[env.freshId];
      && t.id == env.freshId && t.title == Trim(s.titleInput) && t.title != [] && t.descr == "" && t.mode == List
      && !t.isTimerRunning && t.startTime == None && t.timeSpent == 0
      && !t.isCompleted && t.completedAt == None && t.createdAt == env.now
      && (forall k :: k in ActiveKeys(s.todos) ==> t.sortOrder < s.todos[k].sortOrder)
      && s' == s.(todos := s'.todos, titleInput := "")
  {
    TrimEmptyIffAllWhitespace(s.titleInput);
  }

  /** The added todo becomes the first active todo, ahead of the others in
      their order, and no two active todos share a sortOrder. */
  lemma AddTodoOnTop(s: State, env: Env)
    requires DistinctActive(s.todos) && env.freshId !in s.todos && Add(s, env).Some?
    ensures DistinctActive(Add(s, env).value.todos)
    ensures ActiveOrder(Add(s, env).value.todos) == [env.freshId] + ActiveOrder(s.todos)
  {
    var t := NewTodo(env, Trim(s.titleInput), FindTopSortPosition(s.todos) - 1);
    assert Add(s, env).value.todos == s.todos[t.id := t];
    AddOnTop(s.todos, t);
  }

  // ---------------------------------------------------------------------
  // DELETE_TODO

  /** DELETE_TODO removes the one todo and keeps everything else, the time
      log included; deleting again changes nothing, and deleting an absent
      id changes nothing. */
  lemma DeleteTodoSpec(s: State, id: Id)
    ensures Delete(s, id).todos.Keys == s.todos.Keys - {id}
    ensures forall k :: k in s.todos && k != id ==> Delete(s, id).todos[k] == s.todos[k]
    ensures Delete(s, id).(todos := s.todos) == s
    ensures Delete(Delete(s, id), id) == Delete(s, id)
    ensures id !in s.todos ==> Delete(s, id) == s
  {
    assert Delete(s, id).todos - {id} == Delete(s, id).todos;
    if id !in s.todos {
      assert s.todos - {id} == s.todos;
    }
  }

  /** Deleting a todo leaves the other active todos in their order. */
  lemma DeleteTodoKeepsOrder(s: State, id: Id)
    requires DistinctActive(s.todos)
    ensures DistinctActive(Delete(s, id).todos)
    ensures ActiveOrder(Delete(s, id).todos) == Without(ActiveOrder(s.todos), id)
  {
    var todos' := Delete(s, id).todos;
    assert ActiveKeys(todos') == ActiveKeys(s.todos) - {id};
    ActiveOrderWithout(s.todos, todos', id);
  }

  // ---------------------------------------------------------------------
  // SAVE_TODO

  /** At most one todo is open (not in list mode), and it is the one
      openTodoId names. */
  predicate OnlyOpenTodo(s: State) {
    forall k: Id :: k in s.todos && s.todos[k].mode != List ==> s.openTodoId == Some(k)
  }

  /** SAVE_TODO stores the payload merged with `data` under its id, opens
      it unless `data.mode` is 'list', puts a different todo that was open
      back in list mode, and changes nothing else. */
  lemma SaveTodoSpec(s: State, todo: Todo, data: Patch)
    ensures var s' := Save(s, todo, data);
      && s'.todos.Keys == s.todos.Keys + {todo.id}
      && s'.todos[todo.id].(title := todo.title, descr := todo.descr, mode := todo.mode) == todo
      && (data.title.Some? ==> s'.todos[todo.id].title == data.title.value)
      && (data.descr.Some? ==> s'.todos[todo.id].descr == data.descr.value)
      && s'.todos[todo.id].mode == data.mode.GetOr(todo.mode)
      && (s'.openTodoId == Some(todo.id) <==> data.mode != Some(List))
      && (s'.openTodoId == None <==> data.mode == Some(List))
      && (forall k: Id :: k in s.todos && k != todo.id && s.openTodoId == Some(k) ==>
            s'.todos[k] == s.todos[k].(mode := List))
      && (forall k: Id :: k in s.todos && k != todo.id && s.openTodoId != Some(k) ==> s'.todos[k] == s.todos[k])
      && s' == s.(todos := s'.todos, openTodoId := s'.openTodoId)
  {
  }

  /** SAVE_TODO keeps "only one todo is open at once": afterwards the only
      todo that may be out of list mode is the saved one. */
  lemma SaveTodoKeepsOneOpen(s: State, todo: Todo, data: Patch)
    requires OnlyOpenTodo(s)
    ensures OnlyOpenTodo(Save(s, todo, data))
    ensures forall k :: k in Save(s, todo, data).todos && k != todo.id ==> Save(s, todo, data).todos[k].mode == List
  {
    var s' := Save(s, todo, data);
    forall k: Id | k in s'.todos && k != todo.id
      ensures s'.todos[k].mode == List
    {
      if s.openTodoId != Some(k) {
        assert s'.todos[k] == s.todos[k];
      }
    }
  }

  // ---------------------------------------------------------------------
  // COMPLETE_TODO

  /** COMPLETE_TODO flips the todo's completion, stamps completedAt with
      the rounded clock when completing and clears it when re-opening,
      returns it to list mode, stops its timer (adding the elapsed time),
      keeps its sortOrder when completing, and closes its running time-log
      entry when completing it; no other todo changes. */
  lemma CompleteTodoSpec(s: State, todo: Todo, now: int)
    ensures var s' := Complete(s, todo, now);
      var t := s'.todos[todo.id];
      var ct := RoundMs(now);
      && s'.todos.Keys == s.todos.Keys + {todo.id}
      && (forall k :: k in s.todos && k != todo.id ==> s'.todos[k] == s.todos[k])
      && t.isCompleted == !todo.isCompleted
      && t.completedAt == (if t.isCompleted then Some(ct) else None)
      && t.mode == List && !t.isTimerRunning
      && t.startTime == (if todo.isTimerRunning then None else todo.startTime)
      && t.timeSpent == todo.timeSpent + (if todo.isTimerRunning then ct - todo.startTime.GetOr(0) else 0)
      && (t.isCompleted ==> t.sortOrder == todo.sortOrder)
      && (!t.isCompleted ==> forall k :: k in ActiveKeys(s.todos) ==> t.sortOrder < s.todos[k].sortOrder)
      && t.(isCompleted := todo.isCompleted, completedAt := todo.completedAt, mode := todo.mode,
            isTimerRunning := todo.isTimerRunning, startTime := todo.startTime,
            timeSpent := todo.timeSpent, sortOrder := todo.sortOrder) == todo
      && (if t.isCompleted && s.runningTimeItem.Some? && s.runningTimeItem.value.todoId == todo.id
          then s'.runningTimeItem == None
               && s'.timeLog == s.timeLog[s.runningTimeItem.value.id := s.runningTimeItem.value.(stop := Some(ct))]
          else s'.runningTimeItem == s.runningTimeItem && s'.timeLog == s.timeLog)
      && s' == s.(todos := s'.todos, timeLog := s'.timeLog, runningTimeItem := s'.runningTimeItem)
  {
  }

  /** Completing a todo takes it out of the active order and leaves the
      rest in theirs; re-opening one puts it first. */
  lemma CompleteTodoOrder(s: State, todo: Todo, now: int)
    requires DistinctActive(s.todos)
    ensures DistinctActive(Complete(s, todo, now).todos)
    ensures !todo.isCompleted ==>
      ActiveOrder(Complete(s, todo, now).todos) == Without(ActiveOrder(s.todos), todo.id)
    ensures todo.isCompleted ==>
      ActiveOrder(Complete(s, todo, now).todos) == [todo.id] + Without(ActiveOrder(s.todos), todo.id)
  {
    var todos' := Complete(s, todo, now).todos;
    var t := todos'[todo.id];
    assert todos' == s.todos[t.id := t];
    if !todo.isCompleted {
      assert ActiveKeys(todos') == ActiveKeys(s.todos) - {todo.id};
      ActiveOrderWithout(s.todos, todos', todo.id);
    } else {
      PutOnTop(s.todos, t);
    }
  }

  // ---------------------------------------------------------------------
  // TOGGLE_TIMER

  /** Starting a timer: the todo runs from the rounded clock, a new open
      time-log entry for it is added and becomes runningTimeItem; a timer
      running on another todo is stopped and its entry closed at the same
      instant; nothing else changes. */
  lemma ToggleTimerStartSpec(s: State, todo: Todo, now: int, newTimeItemId: Id)
    requires !todo.isTimerRunning
    ensures var s' := Toggle(s, todo, now, newTimeItemId);
      var ct := RoundMs(now);
      var item := TimeLogItem(newTimeItemId, todo.id, ct, None);
      var other := s.runningTimeItem.Some? && s.runningTimeItem.value.todoId != todo.id;
      && s'.todos[todo.id] == todo.(isTimerRunning := true, startTime := Some(ct))
      && s'.runningTimeItem == Some(item)
      && s'.timeLog[newTimeItemId] == item
      && s'.todos.Keys == s.todos.Keys + {todo.id}
      && s'.timeLog.Keys == s.timeLog.Keys + {newTimeItemId} + (if other then {s.runningTimeItem.value.id} else {})
      && (other && s.runningTimeItem.value.todoId in s.todos ==>
            s'.todos[s.runningTimeItem.value.todoId] == StopTimer(s.todos[s.runningTimeItem.value.todoId], ct))
      && (other && s.runningTimeItem.value.id != newTimeItemId ==>
            s'.timeLog[s.runningTimeItem.value.id] == s.runningTimeItem.value.(stop := Some(ct)))
      && (forall k :: k in s.todos && k != todo.id && (other ==> k != s.runningTimeItem.value.todoId) ==>
            s'.todos[k] == s.todos[k])
      && (forall k :: k in s.timeLog && k != newTimeItemId && (other ==> k != s.runningTimeItem.value.id) ==>
            s'.timeLog[k] == s.timeLog[k])
      && s' == s.(todos := s'.todos, timeLog := s'.timeLog, runningTimeItem := s'.runningTimeItem)
  {
  }

  /** Stopping a timer: the todo stops at the rounded clock (the elapsed
      time added to timeSpent), the running entry is closed at that instant,
      and nothing runs any more. */
  lemma ToggleTimerStopSpec(s: State, todo: Todo, now: int, newTimeItemId: Id)
    requires todo.isTimerRunning
    ensures var s' := Toggle(s, todo, now, newTimeItemId);
      var ct := RoundMs(now);
      && s'.todos == s.todos[todo.id := StopTimer(todo, ct)]
      && s'.todos[todo.id].timeSpent == todo.timeSpent + (ct - todo.startTime.GetOr(0))
      && s'.runningTimeItem == None
      && (s.runningTimeItem.Some? ==>
            s'.timeLog == s.timeLog[s.runningTimeItem.value.id := s.runningTimeItem.value.(stop := Some(ct))])
      && (s.runningTimeItem.None? ==> s'.timeLog == s.timeLog)
      && s' == s.(todos := s'.todos, timeLog := s'.timeLog, runningTimeItem := None)
  {
  }

  /** Starting and then stopping a todo's timer adds exactly the rounded
      interval to its timeSpent, records that interval as one closed entry,
      and leaves no timer running. */
  lemma ToggleTwice(s: State, todo: Todo, t0: int, t1: int, id0: Id, id1: Id)
    requires !todo.isTimerRunning
    ensures var s1 := Toggle(s, todo, t0, id0);
      var s2 := Toggle(s1, s1.todos[todo.id], t1, id1);
      && s2.todos[todo.id] == todo.(startTime := None, timeSpent := todo.timeSpent + (RoundMs(t1) - RoundMs(t0)))
      && s2.timeLog[id0] == TimeLogItem(id0, todo.id, RoundMs(t0), Some(RoundMs(t1)))
      && s2.runningTimeItem == None
  {
    var s1 := Toggle(s, todo, t0, id0);
    ToggleTimerStartSpec(s, todo, t0, id0);
    ToggleTimerStopSpec(s1, s1.todos[todo.id], t1, id1);
  }

  // ---------------------------------------------------------------------
  // The dispatch

  /** Which action may change which part of the state: only ADD_TODO can
      return undefined, and it does so exactly on a blank input; only
      SET_SWIPED_TODO sets swipedTodo, only SAVE_TODO sets openTodoId, only
      COMPLETE_TODO and TOGGLE_TIMER touch the time log and runningTimeItem,
      only SET_TODO_TITLE_INPUT and ADD_TODO touch the input, and the
      time-item actions, which have no case, change nothing. */
  lemma ReduceFrames(s: State, a: Action, env: Env)
    requires Admissible(s, a)
    ensures Reduce(s, a, env).None? <==> a.AddTodo? && IsBlank(s.titleInput)
    ensures Reduce(s, a, env).Some? ==>
      var s' := Reduce(s, a, env).value;
      && s'.swipedTodo == (if a.SetSwipedTodo? then a.swiped else s.swipedTodo)
      && (!a.SaveTodo? ==> s'.openTodoId == s.openTodoId)
      && (!(a.CompleteTodo? || a.ToggleTimer?) ==> s'.timeLog == s.timeLog && s'.runningTimeItem == s.runningTimeItem)
      && (!(a.SetTodoTitleInput? || a.AddTodo?) ==> s'.titleInput == s.titleInput)
      && (a.UpdateTimeItem? || a.DeleteTimeItem? || a.SetTodoTitleInput? || a.SetSwipedTodo? ==> s'.todos == s.todos)
      && (a.UpdateTimeItem? || a.DeleteTimeItem? ==> s' == s)
  {
    match a
    case SetTodoTitleInput(_) =>
    case AddTodo(_) => AddTodoBlankIsUndefined(s, env);
    case DeleteTodo(_) =>
    case SaveTodo(_, _) =>
    case CompleteTodo(_) =>
    case ToggleTimer(_) =>
    case SortTodos(_, _) =>
    case SetSwipedTodo(_) =>
    case UpdateTimeItem(_) =>
    case DeleteTimeItem(_) =>
  }

  /** Dropping a todo on itself changes nothing. */
  lemma SortOntoItself(s: State, dragged: Todo, droppedOn: Todo, env: Env)
    requires dragged.id == droppedOn.id
    ensures Reduce(s, SortTodos(dragged, droppedOn), env) == Some(s)
  {
  }
}
