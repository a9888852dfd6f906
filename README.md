# Todo tracker state engine, modelled in Dafny

This project models the core of a client-side todo list with a per-todo
timer. The core is the reducer `todoReducer` in
`src/contexts/TodoProvider.jsx` and the time helpers in `src/helpers.ts`
and `src/helpers.js`.

The reducer state holds:

- the title input text;
- a map from id to todo;
- a map from id to time-log item;
- the swiped todo, the open todo id and the running time-log item.

The reducer handles these actions: `SET_TODO_TITLE_INPUT`, `ADD_TODO`,
`DELETE_TODO`, `SAVE_TODO`, `COMPLETE_TODO`, `TOGGLE_TIMER`, `SORT_TODOS`
and `SET_SWIPED_TODO`. Any other action falls to a default case that returns
the state unchanged. Two helpers support it: `findTopSortPosition` and
`stopTimer`. The helper files add `roundMs` (round to the nearest second),
`calcTotalTime` (a todo's total over the time log), and `formatTimeSpent` /
`formatTimeSpentDisplay` (render a duration as `M:SS`, `H:MM:SS` or
`D day(s) HH:MM:SS`).

Layout:

- `types.dfy` (`TodoTypes`): the records (`Todo`, `TimeLogItem`, `State`),
  the `Mode` enumeration and the actions. JavaScript `null` is `None`.
- `time_helpers.dfy` (`TimeHelpers`):
  - `roundMs` on integer milliseconds, as `(t + 500) / 1000 * 1000`, which
    is what `Math.round` does on integers;
  - `calcTotalTime` as a loop over the log, proved equal to a sum over the
    map.
- `duration_format.dfy` (`DurationFormat`):
  - `formatTimeSpent` as a function (the `helpers.js` form) and as a method
    with reassigned locals (the `helpers.ts` form), proved equal;
  - a reader `ParseTimeSpent` that the rendering is proved against.
- `todo_order.dfy` (`TodoOrder`):
  - `findTopSortPosition`;
  - the active todos listed in `sortOrder`;
  - the `SORT_TODOS` splice and renumbering loop, proved against a
    specification function.
- `todo_reducer.dfy` (`TodoReducer`):
  - `String.prototype.trim`;
  - `stopTimer` and `initialState`;
  - one specification function per action case, and the dispatch
    `Reduce`.
- `todo_dispatch.dfy` (`TodoDispatch`): each case run as the source runs it.
  The method copies the maps and changes the copy with one `set` or
  `delete` at a time. It is proved equal to its case function.
- `reducer_props.dfy` (`ReducerProperties`): what each case promises.
- `invariants.dfy` (`StateInvariants`): the header comment's rules hold in
  `initialState` and in every state that a sequence of dispatches reaches:
  - at most one open todo;
  - one running time-log item, which matches the running todo's
    `startTime`;
  - `completedAt` set exactly on completed todos;
  - distinct active `sortOrder`s.
- `time_accounting.dfy` (`TimeAccounting`): a todo's `timeSpent` always
  equals the sum of its closed log intervals. So what `calcTotalTime` shows
  is `timeSpent` plus the interval that is still running.

Values that come from outside become parameters, collected in `Env`:

- `Date.now()` becomes `now: int` (milliseconds);
- `generateId()` becomes a fresh id;
- `getRandomTailwindColor()` becomes an opaque `color` string.

Ids are non-empty strings, so an id is truthy exactly when present.

Behaviour of the code that the model keeps:

- `ADD_TODO` takes its title from `state.titleInput`, not from the action's
  payload. When that input trims to nothing, the reducer returns `undefined`
  (`None`), not the state. The input box dispatches only `ADD_TODO` with a
  payload (src/TodoInput.tsx:10). So from the initial state, a run with no
  `SET_TODO_TITLE_INPUT` never adds a todo (`NoInputNoNewTodos`).
- `DELETE_TODO` removes only the todo. It leaves `openTodoId`,
  `runningTimeItem` and the time log as they were.
- `SAVE_TODO` does not reject an empty title.
- `COMPLETE_TODO` forces list mode but does not clear `openTodoId`. So the
  invariant proved is one-way: every todo out of list mode is the one
  `openTodoId` names.
- `UPDATE_TIMEITEM` and `DELETE_TIMEITEM` are dispatched by the time-log
  view, but the reducer has no case for them. They return the state
  unchanged.
- `SAVE_TODO`, `COMPLETE_TODO` and `TOGGLE_TIMER` write back the payload
  todo, not the stored one. The per-case lemmas hold for any payload todo,
  and for a `SAVE_TODO` `data` bag of the fields its callers send (`title`,
  `descr` and `mode`). The invariants assume what the callers guarantee
  (`Enabled`):
  - the payload is the stored todo;
  - generated ids are fresh;
  - the timer button is not offered on completed todos;
  - drags are between active todos;
  - the rounded clock is not 0.

## Model

| member | source | states |
|---|---|---|
| `TimeHelpers.RoundToSeconds` | src/helpers.ts:31 | `Math.round(ms / 1000)` on an integer: the whole number of seconds `s` with `1000s - 500 <= ms < 1000s + 500`, so halves round up |
| `TimeHelpers.RoundMs` | src/helpers.ts:4-6 | `roundMs(t)` is a multiple of 1000 and lies in `(t - 500, t + 500]`: the nearest second, with halves rounding up |
| `TimeHelpers.RoundMsUnique` | src/helpers.js:3-5 | the only multiple of 1000 in that window is `roundMs(t)` |
| `TimeHelpers.RoundMsIdempotent` | src/helpers.ts:4-6 | `roundMs(roundMs(t)) == roundMs(t)` |
| `TimeHelpers.RoundMsMonotone` | src/helpers.js:3-5 | `a <= b` implies `roundMs(a) <= roundMs(b)` |
| `TimeHelpers.CalcTotalTime` | src/helpers.ts:8-15 | the `forEach` accumulation returns the sum over the log of `stop - start` for the todo's entries; an entry without a (truthy) stop runs to `roundMs(now)` |
| `TimeHelpers.NoEntriesNoTime` | src/helpers.ts:10-14 | a todo with no log entries has a total of 0 |
| `TimeHelpers.TotalIgnoresOtherTodos` | src/helpers.ts:9 | two logs that hold the same entries for a todo give it the same total, whatever they hold for other todos |
| `DurationFormat.NatToStringReads` | src/helpers.js:37-39 | the decimal text of `n` is non-empty digits that read back as `n` |
| `DurationFormat.TwoDigitsReads` | src/helpers.ts:44 | `n.toString().padStart(2, '0')` for `n < 100` is exactly two digits reading back as `n` |
| `DurationFormat.BreakDown` | src/helpers.ts:31-35 | `hours < 24`, `minutes < 60`, `seconds < 60` and `days*86400 + hours*3600 + minutes*60 + seconds` is the total |
| `DurationFormat.FormatTimeSpentSteps` | src/helpers.ts:28-52 | the helpers.ts form, with `ms`, `dayPart` and `timePart` reassigned, renders exactly what the helpers.js form does |
| `DurationFormat.FormatTimeSpentShape` | src/helpers.js:19-43 | the text is the day count, `day` exactly when there is one day (else `days`), and `HH:MM:SS`; or `H:MM:SS` when there are hours; or `M:SS`; the fields recombine to the rounded, clamped seconds |
| `DurationFormat.FormatTimeSpentRoundTrip` | src/helpers.ts:28-52 | reading the text back gives `round(max(ms, 0) / 1000)`: only the rounding loses information |
| `DurationFormat.FormatTimeSpentInjective` | src/helpers.js:19-43 | two durations render alike exactly when they round to the same whole seconds |
| `DurationFormat.BelowMinuteShowsSeconds` | src/helpers.ts:47-49 | a duration that rounds to under a minute is shown as `0:SS` |
| `DurationFormat.BelowHalfSecondShowsZero` | src/helpers.ts:29 | every duration under half a second, every negative one included, is shown as `0:00` |
| `DurationFormat.DisplayOfEmptyInterval` | src/helpers.js:45-51 | `formatTimeSpentDisplay(s, e)` is `0:00` whenever `e <= s` |
| `TodoReducer.TrimStartCutsWhitespace` | src/contexts/TodoProvider.jsx:87 | the leading cut of `trim()` removes only whitespace and keeps a suffix that is empty or starts with a non-whitespace character |
| `TodoReducer.TrimEndCutsWhitespace` | src/contexts/TodoProvider.jsx:87 | the trailing cut of `trim()` removes only whitespace and keeps a prefix that is empty or ends with a non-whitespace character |
| `TodoReducer.TrimEnds` | src/contexts/TodoProvider.jsx:87 | `trim()` leaves a text no longer than its input that is empty or starts and ends with a non-whitespace character |
| `TodoReducer.TrimIsSlice` | src/contexts/TodoProvider.jsx:87 | `trim()` only cuts leading and trailing whitespace: the result is a slice of the input with whitespace on both sides |
| `TodoReducer.TrimEmptyIffAllWhitespace` | src/contexts/TodoProvider.jsx:87-88 | the title is empty exactly when the input is all whitespace |
| `TodoReducer.TrimIdempotent` | src/contexts/TodoProvider.jsx:87 | trimming twice is trimming once |
| `TodoReducer.StopTimer` | src/contexts/TodoProvider.jsx:63-70 | the timer is off, `startTime` is null, `timeSpent` grows by `currentTime - startTime`, and no other field changes |
| `TodoOrder.FindTopSortPosition` | src/contexts/TodoProvider.jsx:57-61 | the least `sortOrder` of the active todos, which one of them has, or 1 when none is active |
| `TodoOrder.TopPositionIsFree` | src/contexts/TodoProvider.jsx:100 | one below the top position is strictly below every active todo, so the active `sortOrder`s stay distinct |
| `TodoOrder.ActiveOrder` | src/contexts/TodoProvider.jsx:195 | the active todos listed once each by strictly increasing `sortOrder` |
| `TodoOrder.ActiveOrderUnique` | src/contexts/TodoProvider.jsx:195 | there is only one such listing |
| `TodoOrder.ListActiveTodos` | src/contexts/TodoProvider.jsx:195 | the filter-and-sort loop over the map yields that listing |
| `TodoOrder.IndexOf` | src/contexts/TodoProvider.jsx:196-197 | `findIndex` of an id that is present gives its first index |
| `TodoOrder.MoveIsPermutation` | src/contexts/TodoProvider.jsx:198-200 | the two splices put the dragged todo at the dropped-on index and only reorder |
| `TodoOrder.MoveKeepsOthersInOrder` | src/contexts/TodoProvider.jsx:198-200 | the todos that were not dragged keep their relative order |
| `TodoOrder.RenumberTodos` | src/contexts/TodoProvider.jsx:201-206 | the `forEach` loop gives each listed todo its index as `sortOrder` and leaves other todos alone |
| `TodoOrder.Sort` | src/contexts/TodoProvider.jsx:190-208 | the `SORT_TODOS` case returns the state whose todos are `SortedTodos`: unchanged for a self-drop, else renumbered along the moved listing |
| `TodoOrder.SortChangesOnlyActiveOrder` | src/contexts/TodoProvider.jsx:190-208 | the key set, every field but `sortOrder`, and completed todos are untouched |
| `TodoOrder.SortRenumbersActive` | src/contexts/TodoProvider.jsx:194-206 | the active `sortOrder`s become exactly `0..n-1` along the moved listing, which is the new active order, and the dragged todo gets the dropped-on todo's former index |
| `TodoOrder.ActiveOrderWithout` | src/contexts/TodoProvider.jsx:108-112 | a todo leaving the active set (deleted or completed) leaves the others in their order |
| `TodoOrder.PutOnTop` | src/contexts/TodoProvider.jsx:141 | a todo given `findTopSortPosition - 1` heads the active order, the others following in theirs |
| `TodoOrder.AddOnTop` | src/contexts/TodoProvider.jsx:90-104 | a new todo placed at `findTopSortPosition - 1` heads the active order, ahead of the old order |
| `TodoDispatch.TopSortPosition` | src/contexts/TodoProvider.jsx:57-61 | the loop over the map's values returns `findTopSortPosition` |
| `TodoDispatch.TopSortPositionUnique` | src/contexts/TodoProvider.jsx:59 | a value that is an attained active minimum (or 1 with no active todos) is `findTopSortPosition` |
| `TodoDispatch.AddTodoCase` | src/contexts/TodoProvider.jsx:86-106 | the `ADD_TODO` case as run returns what `Add` describes |
| `TodoDispatch.DeleteTodoCase` | src/contexts/TodoProvider.jsx:108-112 | the `DELETE_TODO` case as run returns what `Delete` describes |
| `TodoDispatch.SaveTodoCase` | src/contexts/TodoProvider.jsx:113-129 | the `SAVE_TODO` case as run returns what `Save` describes |
| `TodoDispatch.CompleteTodoCase` | src/contexts/TodoProvider.jsx:130-154 | the `COMPLETE_TODO` case as run returns what `Complete` describes |
| `TodoDispatch.ToggleTimerCase` | src/contexts/TodoProvider.jsx:155-189 | the `TOGGLE_TIMER` case as run returns what `Toggle` describes |
| `TodoDispatch.Dispatch` | src/contexts/TodoProvider.jsx:81-215 | `todoReducer(state, action)` as run returns what `Reduce` describes for every action, the default case included |
| `ReducerProperties.AddTodoIgnoresPayload` | src/contexts/TodoProvider.jsx:86-88 | `ADD_TODO` never reads its payload; with an empty title input it returns `undefined` |
| `ReducerProperties.AddTodoBlankIsUndefined` | src/contexts/TodoProvider.jsx:87-88 | `ADD_TODO` returns `undefined` exactly when the title input is all whitespace |
| `ReducerProperties.AddTodoSpec` | src/contexts/TodoProvider.jsx:90-106 | exactly one todo is added, under the fresh id: trimmed title, `descr` '', list mode, timer off, `startTime` null, `timeSpent` 0, not completed, `completedAt` null, `sortOrder` below every active todo. Existing todos are unchanged, the input is cleared, nothing else changes |
| `ReducerProperties.AddTodoOnTop` | src/contexts/TodoProvider.jsx:100 | the new todo comes first in the active order, the others following in theirs |
| `ReducerProperties.DeleteTodoSpec` | src/contexts/TodoProvider.jsx:108-112 | only the given id is removed. Other todos, the time log, `openTodoId` and `runningTimeItem` are unchanged. Deleting twice equals deleting once; deleting an absent id is a no-op |
| `ReducerProperties.DeleteTodoKeepsOrder` | src/contexts/TodoProvider.jsx:108-112 | the remaining active todos keep their order |
| `ReducerProperties.SaveTodoSpec` | src/contexts/TodoProvider.jsx:113-129 | a different open todo goes back to list mode, otherwise unchanged; the saved todo is `{...todo, ...data}`; `openTodoId` becomes `todo.id` iff `data.mode !== 'list'`, else null; nothing else changes |
| `ReducerProperties.SaveTodoKeepsOneOpen` | src/contexts/TodoProvider.jsx:1-3 | if only the `openTodoId` todo was out of list mode before, only the saved todo can be after |
| `ReducerProperties.CompleteTodoSpec` | src/contexts/TodoProvider.jsx:130-154 | `isCompleted` toggles; `completedAt` is the rounded clock iff completed, else null; list mode is forced; a running timer is stopped with the elapsed time added; completing keeps `sortOrder`, un-completing places it below every active todo; completing the running todo closes its item and clears `runningTimeItem`; nothing else changes |
| `ReducerProperties.CompleteTodoOrder` | src/contexts/TodoProvider.jsx:138-143 | completing takes the todo out of the active order; re-opening puts it first; the others keep their order |
| `ReducerProperties.ToggleTimerStartSpec` | src/contexts/TodoProvider.jsx:155-180 | a timer running on another todo is stopped and its item closed at the same `currentTime`. The todo then starts at `currentTime`, and a new open item with `start = currentTime` becomes `runningTimeItem`. Nothing else changes |
| `ReducerProperties.ToggleTimerStopSpec` | src/contexts/TodoProvider.jsx:182-188 | the todo is stopped at the rounded clock, the running item is closed at that instant, and `runningTimeItem` becomes null |
| `ReducerProperties.ToggleTwice` | src/contexts/TodoProvider.jsx:155-188 | toggling at `t0` and again at `t1` adds exactly `roundMs(t1) - roundMs(t0)` to `timeSpent`, leaves one item from `roundMs(t0)` to `roundMs(t1)`, and ends with `runningTimeItem` null |
| `ReducerProperties.ReduceFrames` | src/contexts/TodoProvider.jsx:81-215 | only `ADD_TODO` can return `undefined`, exactly on a blank input; each field of the state is changed only by the cases that write it; the unhandled time-item actions return the state unchanged |
| `ReducerProperties.SortOntoItself` | src/contexts/TodoProvider.jsx:192 | dropping a todo on itself returns the state unchanged |
| `StateInvariants.InitialStateInv` | src/contexts/TodoProvider.jsx:72-79 | the initial state satisfies the invariant |
| `StateInvariants.AddKeepsInv` | src/contexts/TodoProvider.jsx:86-106 | `ADD_TODO` keeps the invariant |
| `StateInvariants.DeleteKeepsInv` | src/contexts/TodoProvider.jsx:108-112 | `DELETE_TODO` keeps the invariant |
| `StateInvariants.SaveKeepsInv` | src/contexts/TodoProvider.jsx:113-129 | `SAVE_TODO` keeps the invariant |
| `StateInvariants.CompleteKeepsInv` | src/contexts/TodoProvider.jsx:130-154 | `COMPLETE_TODO` keeps the invariant, a running todo's item being closed with it |
| `StateInvariants.ToggleKeepsInv` | src/contexts/TodoProvider.jsx:155-189 | `TOGGLE_TIMER` keeps the invariant: at most one running todo, whose `startTime` is the open item's `start` |
| `StateInvariants.SortKeepsInv` | src/contexts/TodoProvider.jsx:190-208 | `SORT_TODOS` keeps the invariant |
| `StateInvariants.ReduceKeepsInv` | src/contexts/TodoProvider.jsx:81-215 | every action its callers send keeps the invariant whenever the reducer returns a state |
| `StateInvariants.RunKeepsInv` | src/contexts/TodoProvider.jsx:1-6 | every sequence of such dispatches keeps the invariant |
| `StateInvariants.ReachableStatesKeepInv` | src/contexts/TodoProvider.jsx:1-6 | every state reached from `initialState` has at most one open todo and one running item, which matches the running todo's `startTime` |
| `StateInvariants.NoInputNoNewTodos` | src/contexts/TodoProvider.jsx:83-88 | with an empty input and no `SET_TODO_TITLE_INPUT`, the input stays '' and no run adds a todo |
| `TimeAccounting.ShownTotal` | src/helpers.ts:8-15 | under the invariant, `calcTotalTime` is `timeSpent` plus `roundMs(now) - startTime` while the timer runs |
| `TimeAccounting.CloseEntry` | src/contexts/TodoProvider.jsx:148 | closing an item adds `stop - start` to its todo's closed total and nothing to any other todo's |
| `TimeAccounting.ReduceKeepsAccounted` | src/contexts/TodoProvider.jsx:130-189 | every action keeps each `timeSpent` equal to the sum of its todo's closed intervals |
| `TimeAccounting.RunKeepsAccounted` | src/contexts/TodoProvider.jsx:1-6 | so does every run |
| `TimeAccounting.ReachableShownTotal` | src/helpers.ts:8-15 | in every reachable state, the total `calcTotalTime` shows is `timeSpent` plus the running interval |

## Left out

- React components, JSX, drag-and-drop plumbing and the per-second display
  tick: these are presentation.
- `usePersistedReducer`: localStorage and JSON I/O. The state is modelled
  in memory.
- `generateId`, `Date.now()` and `getRandomTailwindColor`: these are
  randomness and the clock. They become the fields of `Env`.
- `formatDateTimeLocal`, `formatDate` and `formatTime`: they depend on the
  time zone and locale of JavaScript `Date`.
- `UPDATE_TIMEITEM` and `DELETE_TIMEITEM`: the reducer has no case for them,
  so they are modelled only as the default case.
- JavaScript `Map` iteration order: it is not modelled. Maps are Dafny
  `map`s, and the order of `[...map.values()]` is left open.
- Floating point: all quantities are integer milliseconds, modelled with
  `int`.
- Sort: requires, when the two todos differ, that both are active, that
  the active `sortOrder`s are distinct and that every todo is stored under
  its own id. With an id missing, `findIndex` returns -1 and `splice` moves
  the wrong todo. With tied `sortOrder`s, the order depends on `Map`
  insertion order. The source lists the stored todos' `id`s and looks each
  up again, so a todo stored under another key would keep its `sortOrder`.
  None of these cases is modelled. The invariant proves all three
  conditions for every reachable state. A self-drop is admitted whatever
  the state holds.
- SortedTodos: requires the same as `Sort`. It lists map keys, which are
  the stored todos' `id`s under that requirement.
- ListActiveTodos: requires that every todo is stored under its own id and
  that the active `sortOrder`s are distinct. It reads each stored todo's
  `id`, as the source does, and its result is the listing of map keys.
- Dispatch: requires the same as `Sort` for a `SORT_TODOS` action.
- CalcTotalTime: reads the clock once, as a parameter. The source calls
  `Date.now()` again for each open item.
- SaveTodoSpec: `data` is limited to `title`, `descr` and `mode`, the only
  fields any call site sends (the edit form's `title` and `descr` fields
  with mode 'list' at src/TodoEdit.tsx:16, and the mode toggles). The
  source types it as `Partial<Todo>` and spreads all of it over the todo,
  so a bag with other fields would change them too, and `SaveKeepsInv`
  would not hold for one that sets `isTimerRunning`.
- SaveKeepsInv: holds for the same `data` bags as `SaveTodoSpec`.
- ReduceKeepsInv: assumes what the callers guarantee (`Enabled`). An
  arbitrary payload todo can break the invariant, because the reducer
  writes back the payload rather than the stored todo.
