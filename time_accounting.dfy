/** The two records of time the app keeps agree: a todo's timeSpent, which
    stopTimer accumulates, is the sum of its closed time-log intervals, and
    so calcTotalTime over the log shows timeSpent plus the running interval.
    Proved for the initial state and kept by every action its callers send. */
module TimeAccounting {
  import opened TodoTypes
  import opened TimeHelpers
  import opened TodoOrder
  import opened TodoReducer
  import opened ReducerProperties
  import opened StateInvariants

  /** Every todo's timeSpent is the sum of its closed intervals, and a
      closed entry's stop is never 0. */
  ghost predicate Accounted(s: State) {
    && (forall k :: k in s.todos ==> s.todos[k].timeSpent == LogTotal(s.timeLog, ClosedFor(k)))
    && (forall k :: k in s.timeLog && s.timeLog[k].stop.Some? ==> s.timeLog[k].stop.value != 0)
  }

  lemma InitialStateAccounted()
    ensures Accounted(InitialState)
  {
  }

  // ---------------------------------------------------------------------
  // What calcTotalTime shows

  /** With no closed entry stopped at 0, what an entry shows is its closed
      part plus its running part. */
  lemma ShownSplits(log: map<Id, TimeLogItem>, id: Id, now: int)
    requires forall k :: k in log && log[k].stop.Some? ==> log[k].stop.value != 0
    ensures LogTotal(log, ShownFor(id, now)) == LogTotal(log, ClosedFor(id)) + LogTotal(log, RunningFor(id, now))
  {
    SumAdditive(log, log.Keys, ShownFor(id, now), ClosedFor(id), RunningFor(id, now));
  }

  /** The running part of a todo's total: the time since its entry started
      while its timer runs, nothing otherwise. */
  lemma RunningPart(s: State, id: Id, now: int)
    requires Inv(s) && id in s.todos
    ensures LogTotal(s.timeLog, RunningFor(id, now))
         == if s.todos[id].isTimerRunning then RoundMs(now) - s.todos[id].startTime.value else 0
  {
    var m := RunningFor(id, now);
    if s.todos[id].isTimerRunning {
      var r := s.runningTimeItem.value;
      forall j | j in s.timeLog && j != r.id
        ensures Eval(m, s.timeLog[j]) == 0
      {
        assert s.timeLog[j].id == j;
      }
      SumSingle(s.timeLog, m, r.id);
    } else {
      forall j | j in s.timeLog
        ensures Eval(m, s.timeLog[j]) == 0
      {
        if s.timeLog[j].stop == None {
          assert s.runningTimeItem == Some(s.timeLog[j]);
        }
      }
      SumZero(s.timeLog, s.timeLog.Keys, m);
    }
  }

  /** calcTotalTime for a todo is its timeSpent plus, while its timer runs,
      the time from its start to the rounded clock. */
  lemma ShownTotal(s: State, id: Id, now: int)
    requires Inv(s) && Accounted(s) && id in s.todos
    ensures LogTotal(s.timeLog, ShownFor(id, now))
         == s.todos[id].timeSpent + (if s.todos[id].isTimerRunning then RoundMs(now) - s.todos[id].startTime.value else 0)
  {
    ShownSplits(s.timeLog, id, now);
    RunningPart(s, id, now);
  }

  // ---------------------------------------------------------------------
  // Closing an entry

  /** Closing entry `r` at `stop` adds `stop - r.start` to the closed total
      of r's todo and nothing to any other todo's. */
  lemma CloseEntry(log: map<Id, TimeLogItem>, r: TimeLogItem, stop: int, j: Id)
    requires r.id in log && log[r.id] == r && r.stop == None
    ensures LogTotal(log[r.id := r.(stop := Some(stop))], ClosedFor(j))
         == LogTotal(log, ClosedFor(j)) + (if r.todoId == j then stop - r.start else 0)
  {
    SumUpdate(log, ClosedFor(j), r.id, r.(stop := Some(stop)));
  }

  /** Adding an open entry changes no closed total. */
  lemma OpenEntry(log: map<Id, TimeLogItem>, item: TimeLogItem, j: Id)
    requires item.id !in log && item.stop == None
    ensures LogTotal(log[item.id := item], ClosedFor(j)) == LogTotal(log, ClosedFor(j))
  {
    SumUpdate(log, ClosedFor(j), item.id, item);
  }

  // ---------------------------------------------------------------------
  // One lemma per action

  lemma AddKeepsAccounted(s: State, payload: string, env: Env)
    requires Inv(s) && Accounted(s) && Enabled(s, AddTodo(payload), env) && Add(s, env).Some?
    ensures Accounted(Add(s, env).value)
  {
    NoClosedTime(s.timeLog, env.freshId);
  }

  lemma NoClosedTime(log: map<Id, TimeLogItem>, id: Id)
    requires forall k :: k in log ==> log[k].todoId != id
    ensures LogTotal(log, ClosedFor(id)) == 0
  {
    SumZero(log, log.Keys, ClosedFor(id));
  }

  /** An action that changes no timeSpent and not the log keeps the
      accounting. */
  lemma SameSpentKeepsAccounted(s: State, s': State)
    requires Accounted(s) && s'.timeLog == s.timeLog && s'.todos.Keys <= s.todos.Keys
    requires forall k :: k in s'.todos ==> s'.todos[k].timeSpent == s.todos[k].timeSpent
    ensures Accounted(s')
  {
  }

  lemma CompleteKeepsAccounted(s: State, todo: Todo, env: Env)
    requires Inv(s) && Accounted(s) && Enabled(s, CompleteTodo(todo), env)
    ensures Accounted(Complete(s, todo, env.now))
  {
    var s' := Complete(s, todo, env.now);
    var ct := RoundMs(env.now);
    CompleteTodoSpec(s, todo, env.now);
    if todo.isTimerRunning {
      var r := s.runningTimeItem.value;
      forall j | j in s'.todos
        ensures s'.todos[j].timeSpent == LogTotal(s'.timeLog, ClosedFor(j))
      {
        CloseEntry(s.timeLog, r, ct, j);
      }
    } else {
      SameSpentKeepsAccounted(s, s');
    }
  }

  /** Starting a timer while another entry runs: that entry is closed and
      its todo stopped at the same instant, and a new open entry is added. */
  lemma SwitchTimerAccounted(s: State, todo: Todo, env: Env)
    requires Inv(s) && Accounted(s) && Enabled(s, ToggleTimer(todo), env) && !todo.isTimerRunning
    requires s.runningTimeItem.Some?
    ensures forall j :: j in Toggle(s, todo, env.now, env.freshId).todos ==>
      Toggle(s, todo, env.now, env.freshId).todos[j].timeSpent
        == LogTotal(Toggle(s, todo, env.now, env.freshId).timeLog, ClosedFor(j))
  {
    var s' := Toggle(s, todo, env.now, env.freshId);
    var ct := RoundMs(env.now);
    var item := TimeLogItem(env.freshId, todo.id, ct, None);
    var r := s.runningTimeItem.value;
    var log1 := s.timeLog[r.id := r.(stop := Some(ct))];
    ToggleTimerStartSpec(s, todo, env.now, env.freshId);
    assert s'.timeLog == log1[env.freshId := item];
    forall j | j in s'.todos
      ensures s'.todos[j].timeSpent == LogTotal(s'.timeLog, ClosedFor(j))
    {
      CloseEntry(s.timeLog, r, ct, j);
      OpenEntry(log1, item, j);
    }
  }

  lemma ToggleStartKeepsAccounted(s: State, todo: Todo, env: Env)
    requires Inv(s) && Accounted(s) && Enabled(s, ToggleTimer(todo), env) && !todo.isTimerRunning
    ensures Accounted(Toggle(s, todo, env.now, env.freshId))
  {
    var s' := Toggle(s, todo, env.now, env.freshId);
    var item := TimeLogItem(env.freshId, todo.id, RoundMs(env.now), None);
    if s.runningTimeItem.Some? {
      SwitchTimerAccounted(s, todo, env);
    } else {
      ToggleTimerStartSpec(s, todo, env.now, env.freshId);
      forall j | j in s'.todos
        ensures s'.todos[j].timeSpent == LogTotal(s'.timeLog, ClosedFor(j))
      {
        OpenEntry(s.timeLog, item, j);
      }
    }
  }

  lemma ToggleStopKeepsAccounted(s: State, todo: Todo, env: Env)
    requires Inv(s) && Accounted(s) && Enabled(s, ToggleTimer(todo), env) && todo.isTimerRunning
    ensures Accounted(Toggle(s, todo, env.now, env.freshId))
  {
    var s' := Toggle(s, todo, env.now, env.freshId);
    var ct := RoundMs(env.now);
    var r := s.runningTimeItem.value;
    ToggleTimerStopSpec(s, todo, env.now, env.freshId);
    forall j | j in s'.todos
      ensures s'.todos[j].timeSpent == LogTotal(s'.timeLog, ClosedFor(j))
    {
      CloseEntry(s.timeLog, r, ct, j);
    }
  }

  lemma SortKeepsAccounted(s: State, dragged: Todo, droppedOn: Todo)
    requires Accounted(s) && Admissible(s, SortTodos(dragged, droppedOn))
    ensures Accounted(s.(todos := SortedTodos(s.todos, dragged.id, droppedOn.id)))
  {
    var s' := s.(todos := SortedTodos(s.todos, dragged.id, droppedOn.id));
    SortChangesOnlyActiveOrder(s.todos, dragged.id, droppedOn.id);
    assert forall k :: k in s'.todos ==> s'.todos[k].timeSpent == s.todos[k].timeSpent;
    SameSpentKeepsAccounted(s, s');
  }

  /** Every action a caller may send keeps timeSpent equal to the closed
      intervals of the log. */
  lemma ReduceKeepsAccounted(s: State, a: Action, env: Env)
    requires Inv(s) && Accounted(s) && Enabled(s, a, env) && Reduce(s, a, env).Some?
    ensures Accounted(Reduce(s, a, env).value)
  {
    match a
    case SetTodoTitleInput(_) =>
    case AddTodo(title) => AddKeepsAccounted(s, title, env);
    case DeleteTodo(id) => SameSpentKeepsAccounted(s, Delete(s, id));
    case SaveTodo(todo, data) =>
      SaveTodoSpec(s, todo, data);
      SameSpentKeepsAccounted(s, Save(s, todo, data));
    case CompleteTodo(todo) => CompleteKeepsAccounted(s, todo, env);
    case ToggleTimer(todo) =>
      if todo.isTimerRunning {
        ToggleStopKeepsAccounted(s, todo, env);
      } else {
        ToggleStartKeepsAccounted(s, todo, env);
      }
    case SortTodos(dragged, droppedOn) => SortKeepsAccounted(s, dragged, droppedOn);
    case SetSwipedTodo(_) =>
    case UpdateTimeItem(_) =>
    case DeleteTimeItem(_) =>
  }

  lemma {:induction false} RunKeepsAccounted(s: State, steps: seq<Step>)
    requires Inv(s) && Accounted(s) && Runs(s, steps)
    ensures Accounted(Run(s, steps))
    decreases |steps|
  {
    if steps != [] {
      ReduceKeepsInv(s, steps[0].action, steps[0].env);
      ReduceKeepsAccounted(s, steps[0].action, steps[0].env);
      RunKeepsAccounted(Reduce(s, steps[0].action, steps[0].env).value, steps[1..]);
    }
  }

  /** In every state the app reaches, the time calcTotalTime shows for a
      todo is its timeSpent plus the running interval, if its timer runs. */
  lemma ReachableShownTotal(steps: seq<Step>, id: Id, now: int)
    requires Runs(InitialState, steps) && id in Run(InitialState, steps).todos
    ensures var s := Run(InitialState, steps);
      && (s.todos[id].isTimerRunning ==> s.todos[id].startTime.Some?)
      && LogTotal(s.timeLog, ShownFor(id, now))
         == s.todos[id].timeSpent + (if s.todos[id].isTimerRunning then RoundMs(now) - s.todos[id].startTime.value else 0)
  {
    ReachableStatesKeepInv(steps);
    InitialStateAccounted();
    InitialStateInv();
    RunKeepsAccounted(InitialState, steps);
    ShownTotal(Run(InitialState, steps), id, now);
  }
}
