/** Integer time arithmetic shared by src/helpers.ts and src/helpers.js:
    rounding to the second and the per-todo total over the time log. */
module TimeHelpers {
  import opened TodoTypes

  /** Math.round(ms / 1000) for integer ms: JavaScript rounds halves up,
      i.e. floor(ms / 1000 + 1/2), which is Euclidean (ms + 500) / 1000. */
  function RoundToSeconds(ms: int): (s: int)
    ensures 1000 * s - 500 <= ms < 1000 * s + 500
  {
    (ms + 500) / 1000
  }

  /** roundMs: the nearest whole second, halves rounding up. */
  function RoundMs(timestamp: int): (r: int)
    ensures r % 1000 == 0
    ensures r - 500 <= timestamp < r + 500
  {
    RoundToSeconds(timestamp) * 1000
  }

  /** The two ensures of RoundMs pin its result down: it is the only multiple
      of 1000 in the half-open window [t - 500, t + 500). */
  lemma RoundMsUnique(t: int, r: int)
    requires r % 1000 == 0 && r - 500 <= t < r + 500
    ensures r == RoundMs(t)
  {
    var q := RoundMs(t);
    assert r - q < 1000 && q - r < 1000;
    assert (r - q) % 1000 == 0 by {
      assert r == (r / 1000) * 1000 && q == (q / 1000) * 1000;
      assert r - q == (r / 1000 - q / 1000) * 1000;
    }
  }

  lemma RoundMsIdempotent(t: int)
    ensures RoundMs(RoundMs(t)) == RoundMs(t)
  {
    var r := RoundMs(t);
    RoundMsUnique(r, r);
  }

  lemma RoundMsMonotone(a: int, b: int)
    requires a <= b
    ensures RoundMs(a) <= RoundMs(b)
  {
    assert RoundToSeconds(a) <= RoundToSeconds(b);
  }

  // ---------------------------------------------------------------------
  // calcTotalTime (src/helpers.ts)

  /** What one time-log entry adds to the total shown for todo `todoId` at
      clock reading `now`. The source tests `item.stop ? item.stop : ...`,
      so a stop of 0 counts as still running, like a missing stop. */
  function Shown(item: TimeLogItem, todoId: Id, now: int): int {
    if item.todoId != todoId then 0
    else (if item.stop.Some? && item.stop.value != 0 then item.stop.value else RoundMs(now)) - item.start
  }

  /** The closed intervals of todo `todoId`: what the timer has accumulated. */
  function Closed(item: TimeLogItem, todoId: Id): int {
    if item.todoId == todoId && item.stop.Some? then item.stop.value - item.start else 0
  }

  /** The open interval of todo `todoId`, measured up to the rounded clock. */
  function Running(item: TimeLogItem, todoId: Id, now: int): int {
    if item.todoId == todoId && item.stop.None? then RoundMs(now) - item.start else 0
  }

  /** Which per-entry quantity a sum adds up. */
  datatype Measure = ShownFor(todoId: Id, now: int) | ClosedFor(todoId: Id) | RunningFor(todoId: Id, now: int)

  function Eval(m: Measure, item: TimeLogItem): int {
    match m
    case ShownFor(id, now) => Shown(item, id, now)
    case ClosedFor(id) => Closed(item, id)
    case RunningFor(id, now) => Running(item, id, now)
  }

  function OwnerOf(m: Measure): Id {
    match m
    case ShownFor(id, _) => id
    case ClosedFor(id) => id
    case RunningFor(id, _) => id
  }

  /** The sum of `m` over the entries of `log` whose keys are in `keys`,
      in no particular order. */
  ghost function Sum(log: map<Id, TimeLogItem>, keys: set<Id>, m: Measure): int
    requires keys <= log.Keys
    decreases keys
  {
    if keys == {} then 0
    else
      var k :| k in keys;
      Eval(m, log[k]) + Sum(log, keys - {k}, m)
  }

  /** The total of a todo's whole time log under `m`. */
  ghost function LogTotal(log: map<Id, TimeLogItem>, m: Measure): int {
    Sum(log, log.Keys, m)
  }

  /** The sum does not depend on which entry is taken first: any entry can be
      split off. */
  lemma {:induction false} SumSplit(log: map<Id, TimeLogItem>, keys: set<Id>, m: Measure, k: Id)
    requires keys <= log.Keys && k in keys
    ensures Sum(log, keys, m) == Eval(m, log[k]) + Sum(log, keys - {k}, m)
    decreases keys
  {
    var j :| j in keys && Sum(log, keys, m) == Eval(m, log[j]) + Sum(log, keys - {j}, m);
    if j != k {
      SumSplit(log, keys - {j}, m, k);
      SumSplit(log, keys - {k}, m, j);
      assert keys - {j} - {k} == keys - {k} - {j};
    }
  }

  /** Only the entries under `keys` matter. */
  lemma {:induction false} SumFrame(log1: map<Id, TimeLogItem>, log2: map<Id, TimeLogItem>, keys: set<Id>, m: Measure)
    requires keys <= log1.Keys && keys <= log2.Keys
    requires forall k :: k in keys ==> log1[k] == log2[k]
    ensures Sum(log1, keys, m) == Sum(log2, keys, m)
    decreases keys
  {
    if keys != {} {
      var k :| k in keys;
      SumSplit(log1, keys, m, k);
      SumSplit(log2, keys, m, k);
      SumFrame(log1, log2, keys - {k}, m);
    }
  }

  /** A sum over entries that all measure zero is zero. */
  lemma {:induction false} SumZero(log: map<Id, TimeLogItem>, keys: set<Id>, m: Measure)
    requires keys <= log.Keys
    requires forall k :: k in keys ==> Eval(m, log[k]) == 0
    ensures Sum(log, keys, m) == 0
    decreases keys
  {
    if keys != {} {
      var k :| k in keys;
      SumSplit(log, keys, m, k);
      SumZero(log, keys - {k}, m);
    }
  }

  /** Replacing (or adding) the entry under key `k` changes the total by the
      difference of what the new and old entry measure. */
  lemma SumUpdate(log: map<Id, TimeLogItem>, m: Measure, k: Id, item: TimeLogItem)
    ensures LogTotal(log[k := item], m)
         == LogTotal(log, m) - (if k in log then Eval(m, log[k]) else 0) + Eval(m, item)
  {
    var log' := log[k := item];
    var rest := log.Keys - {k};
    SumSplit(log', log'.Keys, m, k);
    assert log'.Keys - {k} == rest;
    SumFrame(log, log', rest, m);
    if k in log {
      SumSplit(log, log.Keys, m, k);
    } else {
      assert log.Keys == rest;
    }
  }

  /** The sum of a pointwise sum is the sum of the parts. */
  lemma {:induction false} SumAdditive(log: map<Id, TimeLogItem>, keys: set<Id>, m: Measure, a: Measure, b: Measure)
    requires keys <= log.Keys
    requires forall k :: k in keys ==> Eval(m, log[k]) == Eval(a, log[k]) + Eval(b, log[k])
    ensures Sum(log, keys, m) == Sum(log, keys, a) + Sum(log, keys, b)
    decreases keys
  {
    if keys != {} {
      var k :| k in keys;
      SumSplit(log, keys, m, k);
      SumSplit(log, keys, a, k);
      SumSplit(log, keys, b, k);
      SumAdditive(log, keys - {k}, m, a, b);
    }
  }

  /** A sum in which only entry `k` can be nonzero is that entry's value. */
  lemma SumSingle(log: map<Id, TimeLogItem>, m: Measure, k: Id)
    requires k in log
    requires forall j :: j in log && j != k ==> Eval(m, log[j]) == 0
    ensures LogTotal(log, m) == Eval(m, log[k])
  {
    SumSplit(log, log.Keys, m, k);
    SumZero(log, log.Keys - {k}, m);
  }

  /** calcTotalTime: the time shown for `todo`, the sum over its entries of
      `stop - start`, an entry without a stop running up to roundMs(now). */
  method CalcTotalTime(todo: Todo, timeLog: map<Id, TimeLogItem>, now: int) returns (totalTime: int)
    ensures totalTime == LogTotal(timeLog, ShownFor(todo.id, now))
  {
    ghost var m := ShownFor(todo.id, now);
    var items := timeLog.Keys;
    totalTime := 0;
    while items != {}
      invariant items <= timeLog.Keys
      invariant totalTime + Sum(timeLog, items, m) == LogTotal(timeLog, m)
      decreases items
    {
      var k :| k in items;
      SumSplit(timeLog, items, m, k);
      totalTime := totalTime + Shown(timeLog[k], todo.id, now);
      items := items - {k};
    }
  }

  /** A todo with no time-log entries has a total of zero. */
  lemma NoEntriesNoTime(todoId: Id, timeLog: map<Id, TimeLogItem>, now: int)
    requires forall k :: k in timeLog ==> timeLog[k].todoId != todoId
    ensures LogTotal(timeLog, ShownFor(todoId, now)) == 0
  {
    SumZero(timeLog, timeLog.Keys, ShownFor(todoId, now));
  }

  /** The entries of `log` that belong to todo `todoId`. */
  function Own(log: map<Id, TimeLogItem>, todoId: Id): (o: map<Id, TimeLogItem>)
    ensures o.Keys <= log.Keys
  {
    map k | k in log && log[k].todoId == todoId :: log[k]
  }

  lemma {:induction false} SumOwn(log: map<Id, TimeLogItem>, keys: set<Id>, m: Measure)
    requires keys <= log.Keys
    ensures Sum(log, keys, m) == Sum(Own(log, OwnerOf(m)), keys * Own(log, OwnerOf(m)).Keys, m)
    decreases keys
  {
    var o := Own(log, OwnerOf(m));
    if keys != {} {
      var k :| k in keys;
      SumSplit(log, keys, m, k);
      SumOwn(log, keys - {k}, m);
      if k in o {
        SumSplit(o, keys * o.Keys, m, k);
        assert keys * o.Keys - {k} == (keys - {k}) * o.Keys;
      } else {
        assert keys * o.Keys == (keys - {k}) * o.Keys;
      }
    }
  }

  /** Only the todo's own entries affect its total: two logs that hold the
      same entries for `todoId` give the same total, whatever they hold for
      other todos. */
  lemma TotalIgnoresOtherTodos(log1: map<Id, TimeLogItem>, log2: map<Id, TimeLogItem>, m: Measure)
    requires Own(log1, OwnerOf(m)) == Own(log2, OwnerOf(m))
    ensures LogTotal(log1, m) == LogTotal(log2, m)
  {
    var o := Own(log1, OwnerOf(m));
    SumOwn(log1, log1.Keys, m);
    SumOwn(log2, log2.Keys, m);
    assert log1.Keys * o.Keys == o.Keys;
    assert log2.Keys * o.Keys == o.Keys;
  }
}
