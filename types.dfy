/** The shapes of the todo tracker's state: the todo and time-log records and
    the reducer's state, as declared in src/types.ts and built by
    src/contexts/TodoProvider.jsx. JavaScript `null` is `None`. */
module TodoTypes {

  datatype Option<T> = None | Some(value: T) {
    /** `x ?? d`, and also JavaScript's `x - null` reading `null` as 0 */
    function GetOr(default: T): T {
      match this
      case Some(v) => v
      case None => default
    }
  }

  /** Identifiers come from crypto.randomUUID() or a timestamp-plus-random
      string, so they are never empty: an id is truthy exactly when present. */
  type Id = s: string | |s| > 0 witness "0"

  /** The per-todo interaction mode; every mode but List means "open". */
  datatype Mode = List | Edit | Time | QuickEdit | TimeLog

  /** Times are integer milliseconds since the epoch; `color` is a cosmetic
      class name. The declared interface omits startTime and timeSpent, which
      the reducer stores on every todo. */
  datatype Todo = Todo(
    id: Id,
    title: string,
    descr: string,
    mode: Mode,
    color: string,
    isTimerRunning: bool,
    startTime: Option<int>,
    timeSpent: int,
    sortOrder: int,
    isCompleted: bool,
    completedAt: Option<int>,
    createdAt: int)

  /** One start/stop interval of a todo's timer; `stop == None` while it runs. */
  datatype TimeLogItem = TimeLogItem(id: Id, todoId: Id, start: int, stop: Option<int>)

  /** The reducer's whole state. `swipedTodo` is an opaque UI pointer that the
      reducer only stores. */
  datatype State = State(
    titleInput: string,
    todos: map<Id, Todo>,
    timeLog: map<Id, TimeLogItem>,
    swipedTodo: Option<Id>,
    openTodoId: Option<Id>,
    runningTimeItem: Option<TimeLogItem>)

  /** The fields a SAVE_TODO `data` bag carries at its call sites: a mode
      toggle, or the edit form's title and description with mode 'list'. */
  datatype Patch = Patch(title: Option<string>, descr: Option<string>, mode: Option<Mode>)

  /** The actions the reducer is sent. UpdateTimeItem and DeleteTimeItem are
      dispatched by the time-log view but have no case in the reducer. */
  datatype Action =
    | SetTodoTitleInput(text: string)
    | AddTodo(title: string)
    | DeleteTodo(id: Id)
    | SaveTodo(todo: Todo, data: Patch)
    | CompleteTodo(todo: Todo)
    | ToggleTimer(todo: Todo)
    | SortTodos(draggedTodo: Todo, droppedOnTodo: Todo)
    | SetSwipedTodo(swiped: Option<Id>)
    | UpdateTimeItem(item: TimeLogItem)
    | DeleteTimeItem(itemId: Id)

  /** What one reducer call reads from outside: Date.now(), the result of
      generateId() and of getRandomTailwindColor(). */
  datatype Env = Env(now: int, freshId: Id, color: string)
}
