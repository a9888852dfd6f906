/** The manual ordering of the todo list (src/contexts/TodoProvider.jsx):
    findTopSortPosition, which places a new or re-opened todo above the
    others, and the SORT_TODOS case, which moves a dragged todo to the place
    of the todo it was dropped on and renumbers the active todos 0..n-1. */
module TodoOrder {
  import opened TodoTypes

  /** The keys of the todos that are not completed. */
  function ActiveKeys(todos: map<Id, Todo>): (keys: set<Id>)
    ensures keys <= todos.Keys
  {
    set k | k in todos && !todos[k].isCompleted
  }

  /** Every todo is stored under its own id, so the ids of the stored
      values are the keys. */
  predicate IdKeyed(todos: map<Id, Todo>) {
    forall k :: k in todos ==> todos[k].id == k
  }

  /** No two active todos share a sortOrder. */
  predicate DistinctActive(todos: map<Id, Todo>) {
    forall j, k :: j in ActiveKeys(todos) && k in ActiveKeys(todos) && j != k ==> todos[j].sortOrder != todos[k].sortOrder
  }

  // ---------------------------------------------------------------------
  // findTopSortPosition

  /** The least sortOrder among the todos under `keys`. */
  ghost function MinSortOrder(todos: map<Id, Todo>, keys: set<Id>): (m: int)
    requires keys != {} && keys <= todos.Keys
    ensures exists k :: k in keys && todos[k].sortOrder == m
    ensures forall k :: k in keys ==> m <= todos[k].sortOrder
    decreases keys
  {
    var k :| k in keys;
    if keys == {k} then todos[k].sortOrder
    else
      var rest := MinSortOrder(todos, keys - {k});
      if todos[k].sortOrder < rest then todos[k].sortOrder else rest
  }

  /** findTopSortPosition([...todos.values()]): Math.min of the active
      todos' sortOrder, or 1 when no todo is active. */
  ghost function FindTopSortPosition(todos: map<Id, Todo>): (p: int)
    ensures ActiveKeys(todos) == {} ==> p == 1
    ensures forall k :: k in ActiveKeys(todos) ==> p <= todos[k].sortOrder
    ensures ActiveKeys(todos) != {} ==> exists k :: k in ActiveKeys(todos) && todos[k].sortOrder == p
  {
    if ActiveKeys(todos) == {} then 1 else MinSortOrder(todos, ActiveKeys(todos))
  }

  /** One less than the top position is strictly above every active todo,
      so adding a todo there keeps the active sortOrders distinct. */
  lemma TopPositionIsFree(todos: map<Id, Todo>, t: Todo)
    requires DistinctActive(todos)
    requires t.sortOrder == FindTopSortPosition(todos) - 1
    ensures forall k :: k in ActiveKeys(todos) ==> t.sortOrder < todos[k].sortOrder
    ensures DistinctActive(todos[t.id := t])
  {
    var todos' := todos[t.id := t];
    forall j, k | j in ActiveKeys(todos') && k in ActiveKeys(todos') && j != k
      ensures todos'[j].sortOrder != todos'[k].sortOrder
    {
      if j != t.id && k != t.id {
        assert j in ActiveKeys(todos) && k in ActiveKeys(todos);
      } else if j == t.id {
        assert k in ActiveKeys(todos);
      } else {
        assert j in ActiveKeys(todos);
      }
    }
  }

  // ---------------------------------------------------------------------
  // The active todos in sortOrder

  /** `order` lists todos of `todos` by strictly increasing sortOrder. */
  predicate SortedBy(todos: map<Id, Todo>, order: seq<Id>) {
    && (forall i :: 0 <= i < |order| ==> order[i] in todos)
    && (forall i, j :: 0 <= i < j < |order| ==> todos[order[i]].sortOrder < todos[order[j]].sortOrder)
  }

  /** `order` is the active todos sorted by sortOrder, each once: what
      [...todos.values()].filter(!isCompleted).sort(by sortOrder) yields
      when the active sortOrders are distinct. */
  ghost predicate IsActiveOrder(todos: map<Id, Todo>, order: seq<Id>) {
    && SortedBy(todos, order)
    && (forall k :: k in order <==> k in ActiveKeys(todos))
  }

  /** Inserts `k` in front of the first entry with a larger sortOrder. */
  function InsertBy(todos: map<Id, Todo>, order: seq<Id>, k: Id): (r: seq<Id>)
    requires k in todos && forall i :: 0 <= i < |order| ==> order[i] in todos
    ensures |r| == |order| + 1
    ensures forall x :: x in r <==> x in order || x == k
    ensures forall i :: 0 <= i < |r| ==> r[i] in todos
  {
    if order == [] then [k]
    else if todos[k].sortOrder < todos[order[0]].sortOrder then [k] + order
    else [order[0]] + InsertBy(todos, order[1..], k)
  }

  lemma {:induction false} InsertBySorted(todos: map<Id, Todo>, order: seq<Id>, k: Id)
    requires k in todos && SortedBy(todos, order)
    requires forall i :: 0 <= i < |order| ==> todos[order[i]].sortOrder != todos[k].sortOrder
    ensures SortedBy(todos, InsertBy(todos, order, k))
    decreases |order|
  {
    if order != [] && todos[order[0]].sortOrder < todos[k].sortOrder {
      var tail := order[1..];
      assert forall i :: 0 <= i < |tail| ==> tail[i] == order[i + 1];
      InsertBySorted(todos, tail, k);
      var r := InsertBy(todos, order, k);
      assert r == [order[0]] + InsertBy(todos, tail, k);
      forall i | 1 <= i < |r|
        ensures todos[order[0]].sortOrder < todos[r[i]].sortOrder
      {
        assert r[i] in InsertBy(todos, tail, k);
      }
    }
  }

  /** The active todos of `keys` in sortOrder, built one insertion at a time. */
  ghost function ListActive(todos: map<Id, Todo>, keys: set<Id>): (order: seq<Id>)
    requires keys <= ActiveKeys(todos)
    ensures forall k :: k in order <==> k in keys
    decreases keys
  {
    if keys == {} then []
    else
      var k :| k in keys;
      InsertBy(todos, ListActive(todos, keys - {k}), k)
  }

  lemma {:induction false} ListActiveSorted(todos: map<Id, Todo>, keys: set<Id>)
    requires keys <= ActiveKeys(todos) && DistinctActive(todos)
    ensures SortedBy(todos, ListActive(todos, keys))
    decreases keys
  {
    if keys != {} {
      var k :| k in keys && ListActive(todos, keys) == InsertBy(todos, ListActive(todos, keys - {k}), k);
      var rest := ListActive(todos, keys - {k});
      ListActiveSorted(todos, keys - {k});
      forall i | 0 <= i < |rest|
        ensures todos[rest[i]].sortOrder != todos[k].sortOrder
      {
        assert rest[i] in rest;
      }
      InsertBySorted(todos, rest, k);
    }
  }

  /** The active todos in sortOrder. */
  ghost function ActiveOrder(todos: map<Id, Todo>): (order: seq<Id>)
    requires DistinctActive(todos)
    ensures IsActiveOrder(todos, order)
  {
    ListActiveSorted(todos, ActiveKeys(todos));
    ListActive(todos, ActiveKeys(todos))
  }

  /** The head of a sorted listing comes before every other entry. */
  lemma SortedHead(todos: map<Id, Todo>, order: seq<Id>)
    requires SortedBy(todos, order) && |order| > 0
    ensures forall x :: x in order ==> x == order[0] || todos[order[0]].sortOrder < todos[x].sortOrder
  {
    forall x | x in order
      ensures x == order[0] || todos[order[0]].sortOrder < todos[x].sortOrder
    {
      var i :| 0 <= i < |order| && order[i] == x;
      assert i == 0 || todos[order[0]].sortOrder < todos[order[i]].sortOrder;
    }
  }

  /** There is only one way to list a set of todos by strictly increasing
      sortOrder. */
  lemma {:induction false} SortedListingUnique(todos: map<Id, Todo>, o1: seq<Id>, o2: seq<Id>)
    requires SortedBy(todos, o1) && SortedBy(todos, o2)
    requires forall x :: x in o1 <==> x in o2
    ensures o1 == o2
    decreases |o1|
  {
    assert o1 != [] ==> o1[0] in o1 && o1 == [o1[0]] + o1[1..];
    assert o2 != [] ==> o2[0] in o2 && o2 == [o2[0]] + o2[1..];
    if o1 != [] && o2 != [] {
      SortedHead(todos, o1);
      SortedHead(todos, o2);
      var t1, t2 := o1[1..], o2[1..];
      assert o1[0] == o2[0];
      assert forall i :: 0 <= i < |t1| ==> t1[i] == o1[i + 1];
      assert forall i :: 0 <= i < |t2| ==> t2[i] == o2[i + 1];
      assert o1[0] !in t1 by {
        forall i | 0 <= i < |t1|
          ensures t1[i] != o1[0]
        {
          assert todos[o1[0]].sortOrder < todos[o1[i + 1]].sortOrder;
        }
      }
      assert o2[0] !in t2 by {
        forall i | 0 <= i < |t2|
          ensures t2[i] != o2[0]
        {
          assert todos[o2[0]].sortOrder < todos[o2[i + 1]].sortOrder;
        }
      }
      forall x
        ensures x in t1 <==> x in t2
      {
        assert x in o1 <==> x in o2;
      }
      SortedListingUnique(todos, t1, t2);
    }
  }

  lemma ActiveOrderUnique(todos: map<Id, Todo>, order: seq<Id>)
    requires DistinctActive(todos) && IsActiveOrder(todos, order)
    ensures order == ActiveOrder(todos)
  {
    SortedListingUnique(todos, order, ActiveOrder(todos));
  }

  // ---------------------------------------------------------------------
  // splice and renumbering

  /** activeTodos.findIndex(todo => todo.id === k), for a k that is there. */
  function IndexOf(order: seq<Id>, k: Id): (i: nat)
    requires k in order
    ensures i < |order| && order[i] == k
    ensures forall j :: 0 <= j < i ==> order[j] != k
  {
    if order[0] == k then 0 else 1 + IndexOf(order[1..], k)
  }

  /** splice(from, 1) and then splice(to, 0, removed): the entry at `from`
      taken out and put back so that it ends up at index `to`. */
  function Move(order: seq<Id>, from: nat, to: nat): (r: seq<Id>)
    requires from < |order| && to < |order|
    ensures |r| == |order|
  {
    var rest := order[..from] + order[from + 1..];
    rest[..to] + [order[from]] + rest[to..]
  }

  /** The moved entry lands at `to`, and the move only reorders. */
  lemma MoveIsPermutation(order: seq<Id>, from: nat, to: nat)
    requires from < |order| && to < |order|
    ensures Move(order, from, to)[to] == order[from]
    ensures multiset(Move(order, from, to)) == multiset(order)
  {
    var rest := order[..from] + order[from + 1..];
    assert order == order[..from] + [order[from]] + order[from + 1..];
    assert multiset(order) == multiset(order[..from]) + multiset{order[from]} + multiset(order[from + 1..]);
    assert multiset(rest) == multiset(order[..from]) + multiset(order[from + 1..]);
    assert rest == rest[..to] + rest[to..];
    assert multiset(rest) == multiset(rest[..to]) + multiset(rest[to..]);
    assert Move(order, from, to) == rest[..to] + [order[from]] + rest[to..];
    assert multiset(Move(order, from, to)) == multiset(rest[..to]) + multiset{order[from]} + multiset(rest[to..]);
    assert multiset(Move(order, from, to)) == multiset(rest) + multiset{order[from]};
    assert multiset(order) == multiset(rest) + multiset{order[from]};
  }

  /** Where entry `i` of Move(order, from, to) comes from in `order`. */
  function MoveSource(from: nat, to: nat, i: nat): nat {
    if i == to then from
    else
      var j := if i < to then i else i - 1;
      if j < from then j else j + 1
  }

  lemma MoveIndex(order: seq<Id>, from: nat, to: nat, i: nat)
    requires from < |order| && to < |order| && i < |order|
    ensures MoveSource(from, to, i) < |order|
    ensures Move(order, from, to)[i] == order[MoveSource(from, to, i)]
  {
  }

  /** Moving an entry introduces no repetitions. */
  lemma MoveNoDuplicates(order: seq<Id>, from: nat, to: nat)
    requires from < |order| && to < |order| && NoDuplicates(order)
    ensures NoDuplicates(Move(order, from, to))
  {
    var r := Move(order, from, to);
    forall i, j | 0 <= i < j < |r|
      ensures r[i] != r[j]
    {
      MoveIndex(order, from, to, i);
      MoveIndex(order, from, to, j);
      assert MoveSource(from, to, i) != MoveSource(from, to, j);
    }
  }

  /** The entries that were not moved keep their relative order. */
  lemma MoveKeepsOthersInOrder(order: seq<Id>, from: nat, to: nat)
    requires from < |order| && to < |order|
    ensures Move(order, from, to)[..to] + Move(order, from, to)[to + 1..] == order[..from] + order[from + 1..]
  {
    var r := Move(order, from, to);
    var rest := order[..from] + order[from + 1..];
    assert r[..to] == rest[..to];
    assert r[to + 1..] == rest[to..];
  }

  /** activeTodos.forEach((todo, index) => set sortOrder: index). */
  function Renumber(todos: map<Id, Todo>, order: seq<Id>): (r: map<Id, Todo>)
    ensures r.Keys == todos.Keys
  {
    map k | k in todos :: if k in order then todos[k].(sortOrder := IndexOf(order, k)) else todos[k]
  }

  /** What SORT_TODOS takes for granted when the two todos differ: the
      todos are stored under their ids, both are among the active ones,
      and no two active todos share a sortOrder. Dropping a todo on
      itself returns the state whatever it holds. */
  predicate SortAdmissible(todos: map<Id, Todo>, draggedId: Id, droppedOnId: Id) {
    draggedId != droppedOnId ==>
      && IdKeyed(todos) && DistinctActive(todos)
      && draggedId in ActiveKeys(todos) && droppedOnId in ActiveKeys(todos)
  }

  /** The todos SORT_TODOS leaves: unchanged when a todo is dropped on
      itself, otherwise the active todos renumbered in their moved order. */
  ghost function SortedTodos(todos: map<Id, Todo>, draggedId: Id, droppedOnId: Id): map<Id, Todo>
    requires SortAdmissible(todos, draggedId, droppedOnId)
  {
    if draggedId == droppedOnId then todos
    else
      var order := ActiveOrder(todos);
      Renumber(todos, Move(order, IndexOf(order, draggedId), IndexOf(order, droppedOnId)))
  }

  /** The moved listing of a SORT_TODOS, for the lemmas below. */
  ghost function MovedOrder(todos: map<Id, Todo>, draggedId: Id, droppedOnId: Id): seq<Id>
    requires DistinctActive(todos)
    requires draggedId in ActiveKeys(todos) && droppedOnId in ActiveKeys(todos)
  {
    var order := ActiveOrder(todos);
    Move(order, IndexOf(order, draggedId), IndexOf(order, droppedOnId))
  }

  /** The moved listing holds every active todo exactly once, with the
      dragged todo at the index the dropped-on todo had. */
  lemma MovedOrderFacts(todos: map<Id, Todo>, draggedId: Id, droppedOnId: Id)
    requires DistinctActive(todos)
    requires draggedId in ActiveKeys(todos) && droppedOnId in ActiveKeys(todos)
    ensures NoDuplicates(MovedOrder(todos, draggedId, droppedOnId))
    ensures forall k :: k in MovedOrder(todos, draggedId, droppedOnId) <==> k in ActiveKeys(todos)
    ensures (
      var order := ActiveOrder(todos);
      MovedOrder(todos, draggedId, droppedOnId)[IndexOf(order, droppedOnId)] == draggedId)
  {
    var order := ActiveOrder(todos);
    var from, to := IndexOf(order, draggedId), IndexOf(order, droppedOnId);
    var moved := MovedOrder(todos, draggedId, droppedOnId);
    SortedHasNoDuplicates(todos, order);
    MoveNoDuplicates(order, from, to);
    MoveIsPermutation(order, from, to);
    forall k
      ensures k in moved <==> k in order
    {
      assert k in moved <==> k in multiset(moved);
      assert k in order <==> k in multiset(order);
    }
  }

  /** SORT_TODOS only rewrites the sortOrder of active todos: the key set,
      every other field, and the completed todos stay as they were. */
  lemma SortChangesOnlyActiveOrder(todos: map<Id, Todo>, draggedId: Id, droppedOnId: Id)
    requires SortAdmissible(todos, draggedId, droppedOnId)
    ensures SortedTodos(todos, draggedId, droppedOnId).Keys == todos.Keys
    ensures forall k :: k in todos ==>
      SortedTodos(todos, draggedId, droppedOnId)[k].(sortOrder := todos[k].sortOrder) == todos[k]
    ensures forall k :: k in todos && todos[k].isCompleted ==> SortedTodos(todos, draggedId, droppedOnId)[k] == todos[k]
  {
    if draggedId != droppedOnId {
      MovedOrderFacts(todos, draggedId, droppedOnId);
    }
  }

  /** Renumbering the active todos along a listing of them without
      repetitions numbers them 0..n-1 in that listing, which is then their
      order. */
  lemma RenumberListing(todos: map<Id, Todo>, order: seq<Id>)
    requires NoDuplicates(order)
    requires forall k :: k in order <==> k in ActiveKeys(todos)
    ensures forall i :: 0 <= i < |order| ==> order[i] in Renumber(todos, order) && Renumber(todos, order)[order[i]].sortOrder == i
    ensures DistinctActive(Renumber(todos, order))
    ensures IsActiveOrder(Renumber(todos, order), order)
  {
    var r := Renumber(todos, order);
    forall i | 0 <= i < |order|
      ensures order[i] in r && r[order[i]].sortOrder == i
    {
      assert order[i] in order;
      IndexOfDistinct(order, i);
    }
    assert ActiveKeys(r) == ActiveKeys(todos);
    forall j, k | j in ActiveKeys(r) && k in ActiveKeys(r) && j != k
      ensures r[j].sortOrder != r[k].sortOrder
    {
      var a, b := IndexOf(order, j), IndexOf(order, k);
      assert r[order[a]].sortOrder == a && r[order[b]].sortOrder == b;
    }
  }

  /** After SORT_TODOS with two different todos, the active todos are
      numbered 0..n-1 in the moved order, the moved order is the new
      order of the active todos, and the dragged todo has the index the
      dropped-on todo had. */
  lemma SortRenumbersActive(todos: map<Id, Todo>, draggedId: Id, droppedOnId: Id)
    requires draggedId != droppedOnId && SortAdmissible(todos, draggedId, droppedOnId)
    ensures (
      var moved := MovedOrder(todos, draggedId, droppedOnId);
      var sorted := SortedTodos(todos, draggedId, droppedOnId);
      && (forall i :: 0 <= i < |moved| ==> moved[i] in sorted && sorted[moved[i]].sortOrder == i)
      && DistinctActive(sorted)
      && ActiveOrder(sorted) == moved
      && draggedId in sorted
      && sorted[draggedId].sortOrder == IndexOf(ActiveOrder(todos), droppedOnId))
  {
    var moved := MovedOrder(todos, draggedId, droppedOnId);
    var sorted := SortedTodos(todos, draggedId, droppedOnId);
    MovedOrderFacts(todos, draggedId, droppedOnId);
    assert sorted == Renumber(todos, moved);
    RenumberListing(todos, moved);
    ActiveOrderUnique(sorted, moved);
    var to := IndexOf(ActiveOrder(todos), droppedOnId);
    assert sorted[moved[to]].sortOrder == to;
  }

  // ---------------------------------------------------------------------
  // SORT_TODOS as the source runs it

  /** Entries of a sequence without repetitions are found at their index. */
  predicate NoDuplicates(order: seq<Id>) {
    forall i, j :: 0 <= i < j < |order| ==> order[i] != order[j]
  }

  lemma SortedHasNoDuplicates(todos: map<Id, Todo>, order: seq<Id>)
    requires SortedBy(todos, order)
    ensures NoDuplicates(order)
  {
    forall i, j | 0 <= i < j < |order|
      ensures order[i] != order[j]
    {
      assert todos[order[i]].sortOrder < todos[order[j]].sortOrder;
    }
  }

  lemma IndexOfDistinct(order: seq<Id>, i: nat)
    requires NoDuplicates(order) && i < |order|
    ensures IndexOf(order, order[i]) == i
  {
  }

  /** [...todos.values()].filter((todo) => !todo.isCompleted)
      .sort((a, b) => a.sortOrder - b.sortOrder), as ids. */
  method ListActiveTodos(todos: map<Id, Todo>) returns (activeTodos: seq<Id>)
    requires IdKeyed(todos) && DistinctActive(todos)
    ensures activeTodos == ActiveOrder(todos)
  {
    activeTodos := [];
    var pending := todos.Keys;
    while pending != {}
      invariant pending <= todos.Keys
      invariant SortedBy(todos, activeTodos)
      invariant forall x :: x in activeTodos ==> x in ActiveKeys(todos) && x !in pending
      invariant forall k :: k in ActiveKeys(todos) ==> k in activeTodos || k in pending
      decreases pending
    {
      var k :| k in pending;
      var todo := todos[k];
      if !todo.isCompleted {
        assert todo.id == k;
        forall i | 0 <= i < |activeTodos|
          ensures todos[activeTodos[i]].sortOrder != todos[k].sortOrder
        {
          assert activeTodos[i] in activeTodos;
        }
        InsertBySorted(todos, activeTodos, k);
        activeTodos := InsertBy(todos, activeTodos, todo.id);
      }
      pending := pending - {k};
    }
    ActiveOrderUnique(todos, activeTodos);
  }

  /** activeTodos.forEach((todo, index) => newTodos.set(todo.id,
      {...oldTodo, sortOrder: index})) for the todos that are present. */
  method RenumberTodos(todos: map<Id, Todo>, activeTodos: seq<Id>) returns (newTodos: map<Id, Todo>)
    requires NoDuplicates(activeTodos)
    ensures newTodos == Renumber(todos, activeTodos)
  {
    newTodos := todos;
    var index := 0;
    while index < |activeTodos|
      invariant 0 <= index <= |activeTodos|
      invariant newTodos.Keys == todos.Keys
      invariant forall k :: k in newTodos ==>
        newTodos[k] == if k in activeTodos[..index] then todos[k].(sortOrder := IndexOf(activeTodos, k)) else todos[k]
    {
      var id := activeTodos[index];
      if id in newTodos {
        IndexOfDistinct(activeTodos, index);
        assert id !in activeTodos[..index];
        newTodos := newTodos[id := newTodos[id].(sortOrder := index)];
      }
      assert activeTodos[..index + 1] == activeTodos[..index] + [id];
      index := index + 1;
    }
    assert activeTodos[..index] == activeTodos;
  }

  /** The SORT_TODOS case: list the active todos by sortOrder, splice the
      dragged one out and back in at the dropped-on index, and give every
      listed todo its index as sortOrder. */
  method Sort(state: State, draggedTodo: Todo, droppedOnTodo: Todo) returns (r: State)
    requires SortAdmissible(state.todos, draggedTodo.id, droppedOnTodo.id)
    ensures r == state.(todos := SortedTodos(state.todos, draggedTodo.id, droppedOnTodo.id))
  {
    if draggedTodo.id == droppedOnTodo.id {
      return state;
    }
    assert IdKeyed(state.todos) && DistinctActive(state.todos);
    assert draggedTodo.id in ActiveKeys(state.todos) && droppedOnTodo.id in ActiveKeys(state.todos);
    var newTodos := state.todos;
    var activeTodos := ListActiveTodos(newTodos);
    ghost var order := activeTodos;
    var draggedIndex := IndexOf(activeTodos, draggedTodo.id);
    var droppedIndex := IndexOf(activeTodos, droppedOnTodo.id);
    var removed := activeTodos[draggedIndex];
    activeTodos := activeTodos[..draggedIndex] + activeTodos[draggedIndex + 1..];
    activeTodos := activeTodos[..droppedIndex] + [removed] + activeTodos[droppedIndex..];
    assert activeTodos == Move(order, draggedIndex, droppedIndex);
    SortedHasNoDuplicates(newTodos, order);
    MoveNoDuplicates(order, draggedIndex, droppedIndex);
    newTodos := RenumberTodos(newTodos, activeTodos);
    r := state.(todos := newTodos);
  }

  // ---------------------------------------------------------------------
  // How adding, completing, re-opening and deleting move a todo in the
  // active order

  /** `order` without the entry `x`. */
  function Without(order: seq<Id>, x: Id): (r: seq<Id>)
    ensures forall k :: k in r <==> k in order && k != x
  {
    if order == [] then []
    else if order[0] == x then Without(order[1..], x)
    else [order[0]] + Without(order[1..], x)
  }

  lemma {:induction false} WithoutAbsent(order: seq<Id>, x: Id)
    requires x !in order
    ensures Without(order, x) == order
  {
    if order != [] {
      assert x !in order[1..];
      WithoutAbsent(order[1..], x);
    }
  }

  lemma SortedTail(todos: map<Id, Todo>, order: seq<Id>)
    requires SortedBy(todos, order) && order != []
    ensures SortedBy(todos, order[1..])
  {
    var tail := order[1..];
    forall i, j | 0 <= i < j < |tail|
      ensures todos[tail[i]].sortOrder < todos[tail[j]].sortOrder
    {
      assert tail[i] == order[i + 1] && tail[j] == order[j + 1];
    }
  }

  /** A todo below every entry of a sorted listing can head it. */
  lemma SortedCons(todos: map<Id, Todo>, h: Id, r: seq<Id>)
    requires SortedBy(todos, r) && h in todos
    requires forall y :: y in r ==> todos[h].sortOrder < todos[y].sortOrder
    ensures SortedBy(todos, [h] + r)
  {
    var o := [h] + r;
    forall i, j | 0 <= i < j < |o|
      ensures todos[o[i]].sortOrder < todos[o[j]].sortOrder
    {
      assert o[j] == r[j - 1];
      if i > 0 {
        assert o[i] == r[i - 1];
      }
    }
  }

  /** Leaving one entry out of a sorted listing keeps the rest sorted, also
      under a map that agrees on the sortOrder of the rest. */
  lemma {:induction false} WithoutSorted(todos: map<Id, Todo>, todos': map<Id, Todo>, order: seq<Id>, x: Id)
    requires SortedBy(todos, order)
    requires forall k :: k in order && k != x ==> k in todos' && todos'[k].sortOrder == todos[k].sortOrder
    ensures SortedBy(todos', Without(order, x))
    decreases |order|
  {
    if order != [] {
      var tail := order[1..];
      SortedTail(todos, order);
      WithoutSorted(todos, todos', tail, x);
      if order[0] != x {
        SortedHead(todos, order);
        forall y | y in Without(tail, x)
          ensures todos'[order[0]].sortOrder < todos'[y].sortOrder
        {
          var m :| 0 <= m < |tail| && tail[m] == y;
          assert order[m + 1] == y;
        }
        SortedCons(todos', order[0], Without(tail, x));
      }
    }
  }

  /** A todo that stops being active (deleted or completed) leaves the
      others in the order they had. */
  lemma ActiveOrderWithout(todos: map<Id, Todo>, todos': map<Id, Todo>, x: Id)
    requires DistinctActive(todos)
    requires ActiveKeys(todos') == ActiveKeys(todos) - {x}
    requires forall k :: k in ActiveKeys(todos') ==> todos'[k].sortOrder == todos[k].sortOrder
    ensures DistinctActive(todos')
    ensures ActiveOrder(todos') == Without(ActiveOrder(todos), x)
  {
    var order := ActiveOrder(todos);
    WithoutSorted(todos, todos', order, x);
    ActiveOrderUnique(todos', Without(order, x));
  }

  /** A todo stored with sortOrder findTopSortPosition(...) - 1 comes first
      in the active order, and the others keep their order behind it. */
  lemma PutOnTop(todos: map<Id, Todo>, t: Todo)
    requires DistinctActive(todos) && !t.isCompleted
    requires t.sortOrder == FindTopSortPosition(todos) - 1
    ensures DistinctActive(todos[t.id := t])
    ensures ActiveOrder(todos[t.id := t]) == [t.id] + Without(ActiveOrder(todos), t.id)
  {
    var todos' := todos[t.id := t];
    TopPositionIsFree(todos, t);
    var order := ActiveOrder(todos);
    WithoutSorted(todos, todos', order, t.id);
    var w := Without(order, t.id);
    SortedCons(todos', t.id, w);
    assert ActiveKeys(todos') == ActiveKeys(todos) - {t.id} + {t.id};
    ActiveOrderUnique(todos', [t.id] + w);
  }

  /** A new todo stored with sortOrder findTopSortPosition(...) - 1 heads
      the active order, the others following in theirs. */
  lemma AddOnTop(todos: map<Id, Todo>, t: Todo)
    requires DistinctActive(todos) && !t.isCompleted && t.id !in todos
    requires t.sortOrder == FindTopSortPosition(todos) - 1
    ensures DistinctActive(todos[t.id := t])
    ensures ActiveOrder(todos[t.id := t]) == [t.id] + ActiveOrder(todos)
  {
    PutOnTop(todos, t);
    WithoutAbsent(ActiveOrder(todos), t.id);
  }
}
