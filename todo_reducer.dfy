/** todoReducer (src/contexts/TodoProvider.jsx): one function per action
    case over the reducer state, the helpers stopTimer and String.trim, the
    initial state, and the dispatch. Each case builds its result the way the
    source does, from copies of the maps updated one `set` at a time. */
module TodoReducer {
  import opened TodoTypes
  import opened TimeHelpers
  import opened TodoOrder

  // ---------------------------------------------------------------------
  // String.prototype.trim

  /** The characters trim() removes: ECMAScript WhiteSpace and
      LineTerminator code points. */
  const JsWhitespace: set<int> := {0x09, 0x0A, 0x0B, 0x0C, 0x0D, 0x20, 0xA0, 0x1680,
    0x2000, 0x2001, 0x2002, 0x2003, 0x2004, 0x2005, 0x2006, 0x2007, 0x2008, 0x2009, 0x200A,
    0x2028, 0x2029, 0x202F, 0x205F, 0x3000, 0xFEFF}

  predicate IsJsWhitespace(c: char) {
    c as int in JsWhitespace
  }

  /** `s` with its leading whitespace removed. */
  function TrimStart(s: string): string
    decreases |s|
  {
    if s != [] && IsJsWhitespace(s[0]) then TrimStart(s[1..]) else s
  }

  /** TrimStart keeps a suffix of `s` that is empty or starts with a
      non-whitespace character, and everything it cuts is whitespace. */
  lemma {:induction false} TrimStartCutsWhitespace(s: string)
    ensures |TrimStart(s)| <= |s| && TrimStart(s) == s[|s| - |TrimStart(s)|..]
    ensures TrimStart(s) == [] || !IsJsWhitespace(TrimStart(s)[0])
    ensures forall i :: 0 <= i < |s| - |TrimStart(s)| ==> IsJsWhitespace(s[i])
    decreases |s|
  {
    if s != [] && IsJsWhitespace(s[0]) {
      TrimStartCutsWhitespace(s[1..]);
    }
  }

  /** `s` with its trailing whitespace removed. */
  function TrimEnd(s: string): string
    decreases |s|
  {
    if s != [] && IsJsWhitespace(s[|s| - 1]) then TrimEnd(s[..|s| - 1]) else s
  }

  /** TrimEnd keeps a prefix of `s` that is empty or ends with a
      non-whitespace character, and everything it cuts is whitespace. */
  lemma {:induction false} TrimEndCutsWhitespace(s: string)
    ensures |TrimEnd(s)| <= |s| && TrimEnd(s) == s[..|TrimEnd(s)|]
    ensures TrimEnd(s) == [] || !IsJsWhitespace(TrimEnd(s)[|TrimEnd(s)| - 1])
    ensures forall i :: |TrimEnd(s)| <= i < |s| ==> IsJsWhitespace(s[i])
    decreases |s|
  {
    if s != [] && IsJsWhitespace(s[|s| - 1]) {
      TrimEndCutsWhitespace(s[..|s| - 1]);
    }
  }

  /** s.trim(): `s` without its leading and trailing whitespace. */
  function Trim(s: string): string {
    TrimEnd(TrimStart(s))
  }

  /** Where trim() starts cutting: the length of the leading whitespace. */
  function TrimOffset(s: string): (i: nat)
    ensures i <= |s|
    ensures forall j :: 0 <= j < i ==> IsJsWhitespace(s[j])
  {
    TrimStartCutsWhitespace(s);
    |s| - |TrimStart(s)|
  }

  /** What trim() leaves is no longer than `s`, and empty or starting and
      ending with a non-whitespace character. */
  lemma TrimEnds(s: string)
    ensures |Trim(s)| <= |s|
    ensures Trim(s) == [] || (!IsJsWhitespace(Trim(s)[0]) && !IsJsWhitespace(Trim(s)[|Trim(s)| - 1]))
  {
    var t := TrimStart(s);
    TrimStartCutsWhitespace(s);
    TrimEndCutsWhitespace(t);
    assert Trim(s) != [] ==> Trim(s)[0] == t[0];
  }

  /** trim() cuts only whitespace: its result is the slice of `s` after
      the leading whitespace, and everything after that slice is
      whitespace. */
  lemma TrimIsSlice(s: string)
    ensures TrimOffset(s) + |Trim(s)| <= |s| && Trim(s) == s[TrimOffset(s)..TrimOffset(s) + |Trim(s)|]
    ensures forall j :: TrimOffset(s) + |Trim(s)| <= j < |s| ==> IsJsWhitespace(s[j])
  {
    var t := TrimStart(s);
    TrimStartCutsWhitespace(s);
    TrimEndCutsWhitespace(t);
    PrefixOfSuffix(s, TrimOffset(s), t, Trim(s));
  }

  /** A prefix `r` of the suffix `t` of `s` from `i` is the slice of `s`
      from `i`, and what follows it in `t` is what follows it in `s`. */
  lemma PrefixOfSuffix(s: string, i: nat, t: string, r: string)
    requires i <= |s| && t == s[i..] && |r| <= |t| && r == t[..|r|]
    ensures i + |r| <= |s| && r == s[i..i + |r|]
    ensures forall j :: i + |r| <= j < |s| ==> s[j] == t[j - i]
  {
  }

  /** A title trims to nothing exactly when it is all whitespace. */
  lemma TrimEmptyIffAllWhitespace(s: string)
    ensures Trim(s) == [] <==> forall i :: 0 <= i < |s| ==> IsJsWhitespace(s[i])
  {
    var r := Trim(s);
    TrimIsSlice(s);
    TrimEnds(s);
    assert r != [] ==> r[0] == s[TrimOffset(s)];
  }

  /** Trimming twice is trimming once. */
  lemma TrimIdempotent(s: string)
    ensures Trim(Trim(s)) == Trim(s)
  {
    var r := Trim(s);
    TrimEnds(s);
    if r != [] {
      assert TrimStart(r) == r;
      assert TrimEnd(r) == r;
    }
  }

  // ---------------------------------------------------------------------
  // stopTimer and the initial state

  /** stopTimer(currTodo, currentTime): the timer is off, startTime is null,
      and the elapsed `currentTime - startTime` is added to timeSpent (a
      null startTime counts as 0, as `x - null` does in JavaScript); no
      other field changes. */
  function StopTimer(todo: Todo, currentTime: int): (r: Todo)
    ensures !r.isTimerRunning && r.startTime == None
    ensures r.timeSpent - todo.timeSpent == currentTime - todo.startTime.GetOr(0)
    ensures r.(isTimerRunning := todo.isTimerRunning, startTime := todo.startTime, timeSpent := todo.timeSpent) == todo
  {
    todo.(isTimerRunning := false, startTime := None, timeSpent := todo.timeSpent + (currentTime - todo.startTime.GetOr(0)))
  }

  /** initialState: no input, no todos, an empty time log, nothing swiped,
      open or running. */
  const InitialState: State := State("", map[], map[], None, None, None)

  // ---------------------------------------------------------------------
  // The action cases

  /** The todo ADD_TODO creates: list mode, no timer, nothing spent, not
      completed, with the random colour and Date.now() as createdAt. */
  function NewTodo(env: Env, title: string, sortOrder: int): Todo {
    Todo(env.freshId, title, "", List, env.color, false, None, 0, sortOrder, false, None, env.now)
  }

  /** The state ADD_TODO returns for the non-blank title `title`: a fresh
      todo one below the top position is set in a copy of the todos, and
      the input is cleared. */
  ghost function AddTitled(s: State, env: Env, title: string): State {
    s.(todos := s.todos[env.freshId := NewTodo(env, title, FindTopSortPosition(s.todos) - 1)], titleInput := "")
  }

  /** ADD_TODO as written: the title is state.titleInput trimmed (the
      action's payload is not read); an empty title makes the reducer return
      undefined (None). Otherwise a fresh todo goes on top of the active
      todos and the input is cleared. */
  ghost function Add(s: State, env: Env): Option<State> {
    var title := Trim(s.titleInput);
    if title == [] then None else Some(AddTitled(s, env, title))
  }

  /** DELETE_TODO: drops the todo under `id` and nothing else. */
  function Delete(s: State, id: Id): State {
    s.(todos := s.todos - {id})
  }

  /** {...todo, ...data}: the fields present in `data` override. */
  function Merge(todo: Todo, data: Patch): Todo {
    todo.(title := data.title.GetOr(todo.title), descr := data.descr.GetOr(todo.descr), mode := data.mode.GetOr(todo.mode))
  }

  /** SAVE_TODO: a different todo that was open is put back in list mode,
      the payload todo is stored merged with `data`, and openTodoId names
      the saved todo unless `data.mode` is 'list' (a missing mode counts as
      not 'list'). */
  function Save(s: State, todo: Todo, data: Patch): State {
    var newTodos :=
      if s.openTodoId.Some? && s.openTodoId.value != todo.id && s.openTodoId.value in s.todos
      then s.todos[s.openTodoId.value := s.todos[s.openTodoId.value].(mode := List)]
      else s.todos;
    var newTodos' := newTodos[todo.id := Merge(todo, data)];
    s.(todos := newTodos', openTodoId := if data.mode != Some(List) then Some(todo.id) else None)
  }

  /** COMPLETE_TODO at clock reading `now`: flips isCompleted, stamps or
      clears completedAt with roundMs(now), forces list mode, stops a
      running timer, puts a re-opened todo on top of the active todos, and,
      when completing the todo whose entry is running, closes that entry. */
  ghost function Complete(s: State, todo: Todo, now: int): State {
    var currentTime := RoundMs(now);
    var isCompleted := !todo.isCompleted;
    var baseTodo := if todo.isTimerRunning then StopTimer(todo, currentTime) else todo;
    var newTodos := s.todos[todo.id := baseTodo.(
      isCompleted := isCompleted,
      completedAt := if isCompleted then Some(currentTime) else None,
      sortOrder := if isCompleted then todo.sortOrder else FindTopSortPosition(s.todos) - 1,
      mode := List)];
    if isCompleted && s.runningTimeItem.Some? && s.runningTimeItem.value.todoId == todo.id then
      var item := s.runningTimeItem.value;
      s.(todos := newTodos, timeLog := s.timeLog[item.id := item.(stop := Some(currentTime))], runningTimeItem := None)
    else
      s.(todos := newTodos)
  }

  /** TOGGLE_TIMER at clock reading `now`, with `newTimeItemId` from
      generateId(). Starting: a timer running on another todo is stopped
      and its entry closed, then this todo starts and a new open entry
      becomes runningTimeItem. Stopping: this todo's timer stops and
      whatever entry is running is closed. */
  function Toggle(s: State, todo: Todo, now: int, newTimeItemId: Id): State {
    var currentTime := RoundMs(now);
    if !todo.isTimerRunning then
      var other := s.runningTimeItem.Some? && s.runningTimeItem.value.todoId != todo.id;
      var runningTodoId := if other then s.runningTimeItem.value.todoId else todo.id;
      var newTodos :=
        if other && runningTodoId in s.todos
        then s.todos[runningTodoId := StopTimer(s.todos[runningTodoId], currentTime)]
        else s.todos;
      var newTimeLog :=
        if other then s.timeLog[s.runningTimeItem.value.id := s.runningTimeItem.value.(stop := Some(currentTime))]
        else s.timeLog;
      var newTimeItem := TimeLogItem(newTimeItemId, todo.id, currentTime, None);
      s.(todos := newTodos[todo.id := todo.(isTimerRunning := true, startTime := Some(currentTime))],
         timeLog := newTimeLog[newTimeItemId := newTimeItem],
         runningTimeItem := Some(newTimeItem))
    else
      var newTimeLog :=
        if s.runningTimeItem.Some?
        then s.timeLog[s.runningTimeItem.value.id := s.runningTimeItem.value.(stop := Some(currentTime))]
        else s.timeLog;
      s.(todos := s.todos[todo.id := StopTimer(todo, currentTime)], timeLog := newTimeLog, runningTimeItem := None)
  }

  /** What the source takes for granted of an action: a SORT_TODOS between
      two different todos finds both among the active ones, stored under
      their ids and listed without sortOrder ties. */
  predicate Admissible(s: State, a: Action) {
    match a
    case SortTodos(dragged, droppedOn) => SortAdmissible(s.todos, dragged.id, droppedOn.id)
    case _ => true
  }

  /** todoReducer(state, action); None is the `undefined` ADD_TODO returns
      for a blank title input. `env` supplies Date.now(), generateId() and
      the random colour. UPDATE_TIMEITEM and DELETE_TIMEITEM have no case
      and fall to the default, which returns the state unchanged. */
  ghost function Reduce(s: State, a: Action, env: Env): Option<State>
    requires Admissible(s, a)
  {
    match a
    case SetTodoTitleInput(text) => Some(s.(titleInput := text))
    case AddTodo(_) => Add(s, env)
    case DeleteTodo(id) => Some(Delete(s, id))
    case SaveTodo(todo, data) => Some(Save(s, todo, data))
    case CompleteTodo(todo) => Some(Complete(s, todo, env.now))
    case ToggleTimer(todo) => Some(Toggle(s, todo, env.now, env.freshId))
    case SortTodos(dragged, droppedOn) => Some(s.(todos := SortedTodos(s.todos, dragged.id, droppedOn.id)))
    case SetSwipedTodo(swiped) => Some(s.(swipedTodo := swiped))
    case UpdateTimeItem(_) => Some(s)
    case DeleteTimeItem(_) => Some(s)
  }
}
