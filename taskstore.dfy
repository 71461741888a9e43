/**
  The in-memory task store: a `tasks` table and a `lists` table, each
  replaced wholesale by a store call, and the two queries over their inner
  join on the list id. The SQL engine is stated by its meaning over sequences
  of rows.
*/
module TaskStore {
  import opened Wrappers
  import opened Strings
  import opened Responses

  /** A row of the `tasks` table, in the table's column order. */
  datatype TaskRow = TaskRow(listId: string, seriesId: string, taskId: string, completed: string,
                             name: string, due: string, priority: string)

  /** A row of the `lists` table. */
  datatype ListRow = ListRow(listId: string, listName: string)

  /** A row of the join `tasks as tasks, lists as lists`. */
  datatype Joined = Joined(task: TaskRow, list: ListRow)

  /** The dictionary describing one task, keyed by column name. */
  type Record = map<string, string>

  datatype Table = TasksTable | ListsTable

  /** `TasksDB.columns`: the selected columns, in select order. */
  const ColumnNames: seq<string> :=
    ["tasks.listid", "taskseriesid", "taskid", "name", "due", "priority", "completed", "listname"]

  /** The value of the `c`-th selected column in a joined row. */
  function Cell(j: Joined, c: nat): string
    requires c < |ColumnNames|
  {
    match c
    case 0 => j.task.listId
    case 1 => j.task.seriesId
    case 2 => j.task.taskId
    case 3 => j.task.name
    case 4 => j.task.due
    case 5 => j.task.priority
    case 6 => j.task.completed
    case _ => j.list.listName
  }

  /** The column a name given to `ORDER BY` denotes, if it is one of the selected columns. */
  function ColumnIndex(name: string): (r: Option<nat>)
    ensures r.Some? ==> r.value < |ColumnNames| && ColumnNames[r.value] == name
    ensures r.None? <==> name !in ColumnNames
  {
    if name == "tasks.listid" then Some(0)
    else if name == "taskseriesid" then Some(1)
    else if name == "taskid" then Some(2)
    else if name == "name" then Some(3)
    else if name == "due" then Some(4)
    else if name == "priority" then Some(5)
    else if name == "completed" then Some(6)
    else if name == "listname" then Some(7)
    else None
  }

  /** `d` has exactly the selected columns as keys, each mapped to that column of `j`. */
  ghost predicate IsRecordOf(d: Record, j: Joined)
  {
    && (forall k :: k in d <==> k in ColumnNames)
    && forall c :: 0 <= c < |ColumnNames| ==> ColumnNames[c] in d && d[ColumnNames[c]] == Cell(j, c)
  }

  // ---------------------------------------------------------------------------
  // Rows stored from a tasks response (src/TasksDB.py:108-128)
  // ---------------------------------------------------------------------------

  /** The row stored for one task series of the list with id `listId`. */
  function RowOf(listId: string, s: TaskSeries): TaskRow
  {
    TaskRow(listId, s.id, s.task.id, s.task.completed, s.name, s.task.due, s.task.priority)
  }

  function SeriesRows(listId: string, ss: seq<TaskSeries>): (r: seq<TaskRow>)
    ensures |r| == |ss|
    ensures forall k :: 0 <= k < |ss| ==> r[k] == RowOf(listId, ss[k])
  {
    if |ss| == 0 then [] else [RowOf(listId, ss[0])] + SeriesRows(listId, ss[1..])
  }

  /** One row per task series, list by list, in response order. */
  function TaskRows(ls: seq<TaskList>): seq<TaskRow>
  {
    if |ls| == 0 then [] else SeriesRows(ls[0].id, ls[0].series) + TaskRows(ls[1..])
  }

  /** The number of task series in a response. */
  function SeriesCount(ls: seq<TaskList>): nat
  {
    if |ls| == 0 then 0 else |ls[0].series| + SeriesCount(ls[1..])
  }

  lemma {:induction false} TaskRowsSnoc(ls: seq<TaskList>, l: TaskList)
    ensures TaskRows(ls + [l]) == TaskRows(ls) + SeriesRows(l.id, l.series)
  {
    if |ls| == 0 {
      assert ls + [l] == [l];
      assert [l][1..] == [];
    } else {
      assert (ls + [l])[1..] == ls[1..] + [l];
      TaskRowsSnoc(ls[1..], l);
    }
  }

  /** The stored table has one row per task series and no other row. */
  lemma {:induction false} TaskRowsCount(ls: seq<TaskList>)
    ensures |TaskRows(ls)| == SeriesCount(ls)
  {
    if |ls| > 0 {
      TaskRowsCount(ls[1..]);
    }
  }

  /** A row is stored exactly when it is the row of some series of some list. */
  lemma {:induction false} TaskRowsMembership(ls: seq<TaskList>, r: TaskRow)
    ensures r in TaskRows(ls) <==>
            exists i, k :: 0 <= i < |ls| && 0 <= k < |ls[i].series| && r == RowOf(ls[i].id, ls[i].series[k])
  {
    if |ls| > 0 {
      TaskRowsMembership(ls[1..], r);
      var head := SeriesRows(ls[0].id, ls[0].series);
      if r in head {
        var k :| 0 <= k < |head| && head[k] == r;
        assert 0 < |ls| && 0 <= k < |ls[0].series| && r == RowOf(ls[0].id, ls[0].series[k]);
      } else if r in TaskRows(ls[1..]) {
        var i, k :| 0 <= i < |ls[1..]| && 0 <= k < |ls[1..][i].series| && r == RowOf(ls[1..][i].id, ls[1..][i].series[k]);
        assert 0 <= i + 1 < |ls| && 0 <= k < |ls[i + 1].series| && r == RowOf(ls[i + 1].id, ls[i + 1].series[k]);
      } else {
        forall i, k | 0 <= i < |ls| && 0 <= k < |ls[i].series|
          ensures r != RowOf(ls[i].id, ls[i].series[k])
        {
          if i == 0 {
            assert head[k] == RowOf(ls[0].id, ls[0].series[k]);
          } else {
            assert ls[1..][i - 1] == ls[i];
          }
        }
      }
    }
  }

  /** The rows stored from a lists response: one (id, name) row per entry, in order. */
  function ListRows(es: seq<ListEntry>): (r: seq<ListRow>)
    ensures |r| == |es|
    ensures forall i :: 0 <= i < |es| ==> r[i] == ListRow(es[i].id, es[i].name)
  {
    if |es| == 0 then [] else [ListRow(es[0].id, es[0].name)] + ListRows(es[1..])
  }

  // ---------------------------------------------------------------------------
  // The joined query (src/TasksDB.py:147-186)
  // ---------------------------------------------------------------------------

  /** The join condition, the completed filter and the category filter of `getTasks`. */
  predicate Selected(j: Joined, categoryName: Option<string>, showCompleted: bool)
  {
    && j.task.listId == j.list.listId
    && (showCompleted || j.task.completed == "")
    && (categoryName.None? || j.list.listName == categoryName.value)
  }

  /** The selected pairs of one task row with the list rows, in table order. */
  function PairsWith(t: TaskRow, lists: seq<ListRow>, categoryName: Option<string>, showCompleted: bool): seq<Joined>
  {
    if |lists| == 0 then []
    else
      var j := Joined(t, lists[0]);
      (if Selected(j, categoryName, showCompleted) then [j] else [])
      + PairsWith(t, lists[1..], categoryName, showCompleted)
  }

  /** The selected joined rows, task rows outermost, before any ordering. */
  function Query(tasks: seq<TaskRow>, lists: seq<ListRow>, categoryName: Option<string>, showCompleted: bool): seq<Joined>
  {
    if |tasks| == 0 then []
    else PairsWith(tasks[0], lists, categoryName, showCompleted) + Query(tasks[1..], lists, categoryName, showCompleted)
  }

  lemma {:induction false} PairsWithCount(t: TaskRow, lists: seq<ListRow>, categoryName: Option<string>, showCompleted: bool, j: Joined)
    ensures multiset(PairsWith(t, lists, categoryName, showCompleted))[j] ==
            if j.task == t && Selected(j, categoryName, showCompleted) then multiset(lists)[j.list] else 0
  {
    if |lists| > 0 {
      PairsWithCount(t, lists[1..], categoryName, showCompleted, j);
      assert lists == [lists[0]] + lists[1..];
    }
  }

  /**
    The query holds each selected (task row, list row) pair as many times as the
    task row occurs times the list row occurs, and nothing else: a task whose
    list id has no list row is absent.
  */
  lemma {:induction false} QueryCount(tasks: seq<TaskRow>, lists: seq<ListRow>, categoryName: Option<string>, showCompleted: bool, j: Joined)
    ensures multiset(Query(tasks, lists, categoryName, showCompleted))[j] ==
            if Selected(j, categoryName, showCompleted) then multiset(tasks)[j.task] * multiset(lists)[j.list] else 0
  {
    if |tasks| > 0 {
      QueryUnfold(tasks, lists, categoryName, showCompleted, j);
      QueryCount(tasks[1..], lists, categoryName, showCompleted, j);
      PairsWithCount(tasks[0], lists, categoryName, showCompleted, j);
      HeadCount(tasks, j.task);
      if Selected(j, categoryName, showCompleted) {
        CountStep(multiset(tasks[1..])[j.task], multiset(lists)[j.list], j.task == tasks[0]);
      }
    }
  }

  lemma QueryUnfold(tasks: seq<TaskRow>, lists: seq<ListRow>, categoryName: Option<string>, showCompleted: bool, j: Joined)
    requires |tasks| > 0
    ensures multiset(Query(tasks, lists, categoryName, showCompleted))[j] ==
            multiset(PairsWith(tasks[0], lists, categoryName, showCompleted))[j] +
            multiset(Query(tasks[1..], lists, categoryName, showCompleted))[j]
  {
  }

  lemma HeadCount(tasks: seq<TaskRow>, t: TaskRow)
    requires |tasks| > 0
    ensures multiset(tasks)[t] == multiset(tasks[1..])[t] + (if t == tasks[0] then 1 else 0)
  {
    assert tasks == [tasks[0]] + tasks[1..];
  }

  lemma CountStep(a: nat, b: nat, hit: bool)
    ensures (if hit then b else 0) + a * b == (a + (if hit then 1 else 0)) * b
  {
    if hit {
      MulSucc(a, b);
    }
  }

  lemma MulSucc(a: nat, b: nat)
    ensures (a + 1) * b == a * b + b
  {
  }

  lemma MulPositive(a: nat, b: nat)
    ensures a * b > 0 <==> a > 0 && b > 0
  {
    if a > 0 && b > 0 {
      assert a * b >= b by {
        MulMono(a, b);
      }
    }
  }

  lemma {:induction false} MulMono(a: nat, b: nat)
    requires a > 0
    ensures a * b >= b
  {
    if a > 1 {
      MulMono(a - 1, b);
      MulSucc(a - 1, b);
    }
  }

  /** Membership in the query: both rows are in their tables and the pair is selected. */
  lemma QueryMembership(tasks: seq<TaskRow>, lists: seq<ListRow>, categoryName: Option<string>, showCompleted: bool, j: Joined)
    ensures j in Query(tasks, lists, categoryName, showCompleted) <==>
            j.task in tasks && j.list in lists && Selected(j, categoryName, showCompleted)
  {
    var q := Query(tasks, lists, categoryName, showCompleted);
    QueryCount(tasks, lists, categoryName, showCompleted, j);
    MulPositive(multiset(tasks)[j.task], multiset(lists)[j.list]);
    assert j in q <==> j in multiset(q);
    assert j.task in tasks <==> j.task in multiset(tasks);
    assert j.list in lists <==> j.list in multiset(lists);
  }

  // ---------------------------------------------------------------------------
  // ORDER BY (src/TasksDB.py:166-170)
  // ---------------------------------------------------------------------------

  /** Non-decreasing in column `c` under SQLite's default (binary) text collation. */
  predicate SortedOn(s: seq<Joined>, c: nat)
    requires c < |ColumnNames|
  {
    forall i, k :: 0 <= i < k < |s| ==> LessEq(Cell(s[i], c), Cell(s[k], c))
  }

  function InsertOn(j: Joined, s: seq<Joined>, c: nat): (r: seq<Joined>)
    requires c < |ColumnNames|
    ensures multiset(r) == multiset(s) + multiset{j}
  {
    if |s| == 0 then [j]
    else if LessEq(Cell(j, c), Cell(s[0], c)) then [j] + s
    else
      assert s == [s[0]] + s[1..];
      [s[0]] + InsertOn(j, s[1..], c)
  }

  /** The rows ordered on column `c`; a permutation of the input. */
  function SortOn(s: seq<Joined>, c: nat): (r: seq<Joined>)
    requires c < |ColumnNames|
    ensures multiset(r) == multiset(s)
  {
    if |s| == 0 then []
    else
      assert s == [s[0]] + s[1..];
      InsertOn(s[0], SortOn(s[1..], c), c)
  }

  /** A row not above any row of a sorted sequence can go in front. */
  lemma SortedOnCons(x: Joined, t: seq<Joined>, c: nat)
    requires c < |ColumnNames| && SortedOn(t, c)
    requires forall k :: 0 <= k < |t| ==> LessEq(Cell(x, c), Cell(t[k], c))
    ensures SortedOn([x] + t, c)
  {
    var r := [x] + t;
    forall i, k | 0 <= i < k < |r|
      ensures LessEq(Cell(r[i], c), Cell(r[k], c))
    {
      assert r[k] == t[k - 1];
      if i > 0 {
        assert r[i] == t[i - 1];
      }
    }
  }

  /** A row not above `j` nor above any row of `s` is not above any row of `InsertOn(j, s, c)`. */
  lemma InsertOnKeepsLower(x: Joined, j: Joined, s: seq<Joined>, c: nat)
    requires c < |ColumnNames| && LessEq(Cell(x, c), Cell(j, c))
    requires forall k :: 0 <= k < |s| ==> LessEq(Cell(x, c), Cell(s[k], c))
    ensures forall k :: 0 <= k < |InsertOn(j, s, c)| ==> LessEq(Cell(x, c), Cell(InsertOn(j, s, c)[k], c))
  {
    var t := InsertOn(j, s, c);
    forall k | 0 <= k < |t|
      ensures LessEq(Cell(x, c), Cell(t[k], c))
    {
      assert t[k] in multiset(t);
      if t[k] != j {
        assert t[k] in s;
        var m :| 0 <= m < |s| && s[m] == t[k];
      }
    }
  }

  lemma {:induction false} InsertOnSorted(j: Joined, s: seq<Joined>, c: nat)
    requires c < |ColumnNames| && SortedOn(s, c)
    ensures SortedOn(InsertOn(j, s, c), c)
  {
    if |s| > 0 {
      if LessEq(Cell(j, c), Cell(s[0], c)) {
        forall k | 0 <= k < |s|
          ensures LessEq(Cell(j, c), Cell(s[k], c))
        {
          if k > 0 {
            LessEqTrans(Cell(j, c), Cell(s[0], c), Cell(s[k], c));
          }
        }
        SortedOnCons(j, s, c);
      } else {
        LessEqTotal(Cell(j, c), Cell(s[0], c));
        assert SortedOn(s[1..], c) by {
          forall i, k | 0 <= i < k < |s[1..]|
            ensures LessEq(Cell(s[1..][i], c), Cell(s[1..][k], c))
          {
            assert s[1..][i] == s[i + 1] && s[1..][k] == s[k + 1];
          }
        }
        InsertOnSorted(j, s[1..], c);
        forall k | 0 <= k < |s[1..]|
          ensures LessEq(Cell(s[0], c), Cell(s[1..][k], c))
        {
          assert s[1..][k] == s[k + 1];
        }
        InsertOnKeepsLower(s[0], j, s[1..], c);
        SortedOnCons(s[0], InsertOn(j, s[1..], c), c);
      }
    }
  }

  /** Ordering on a column gives rows non-decreasing in that column. */
  lemma {:induction false} SortOnSorted(s: seq<Joined>, c: nat)
    requires c < |ColumnNames|
    ensures SortedOn(SortOn(s, c), c)
  {
    if |s| > 0 {
      SortOnSorted(s[1..], c);
      InsertOnSorted(s[0], SortOn(s[1..], c), c);
    }
  }

  /** The rows `getTasks` reports, in the order it reports them. */
  function Ordered(rows: seq<Joined>, orderBy: Option<nat>): seq<Joined>
    requires orderBy.Some? ==> orderBy.value < |ColumnNames|
  {
    if orderBy.None? then rows else SortOn(rows, orderBy.value)
  }

  // ---------------------------------------------------------------------------
  // Point lookup (src/TasksDB.py:198-213)
  // ---------------------------------------------------------------------------

  predicate HasIds(j: Joined, taskId: string, listId: string, taskSeriesId: string)
  {
    j.task.listId == listId && j.task.seriesId == taskSeriesId && j.task.taskId == taskId
  }

  /** The first joined row with the given identifiers (`fetchone`). */
  function FirstWithIds(js: seq<Joined>, taskId: string, listId: string, taskSeriesId: string): (r: Option<Joined>)
    ensures r.Some? ==> r.value in js && HasIds(r.value, taskId, listId, taskSeriesId)
    ensures r.None? <==> forall j :: j in js ==> !HasIds(j, taskId, listId, taskSeriesId)
  {
    if |js| == 0 then None
    else if HasIds(js[0], taskId, listId, taskSeriesId) then Some(js[0])
    else
      assert forall j :: j in js ==> j == js[0] || j in js[1..];
      FirstWithIds(js[1..], taskId, listId, taskSeriesId)
  }

  /** The dictionary for one row: the loop over `columns` of `getTasks` and `getTaskById`. */
  method RecordOf(j: Joined) returns (d: Record)
    ensures IsRecordOf(d, j)
  {
    d := map[];
    var i := 0;
    while i < |ColumnNames|
      invariant 0 <= i <= |ColumnNames|
      invariant forall k :: k in d <==> k in ColumnNames[..i]
      invariant forall c :: 0 <= c < i ==> d[ColumnNames[c]] == Cell(j, c)
    {
      d := d[ColumnNames[i] := Cell(j, i)];
      i := i + 1;
    }
    assert ColumnNames[..i] == ColumnNames;
  }

  /** A record's identifying columns are the joined row's identifiers. */
  lemma RecordIds(d: Record, j: Joined)
    requires IsRecordOf(d, j)
    ensures "tasks.listid" in d && d["tasks.listid"] == j.task.listId
    ensures "taskseriesid" in d && d["taskseriesid"] == j.task.seriesId
    ensures "taskid" in d && d["taskid"] == j.task.taskId
    ensures "completed" in d && d["completed"] == j.task.completed
    ensures "listname" in d && d["listname"] == j.list.listName
  {
    IdentifyingColumns();
    assert Cell(j, 0) == j.task.listId && Cell(j, 1) == j.task.seriesId && Cell(j, 2) == j.task.taskId;
    assert Cell(j, 6) == j.task.completed && Cell(j, 7) == j.list.listName;
  }

  lemma IdentifyingColumns()
    ensures ColumnNames[0] == "tasks.listid" && ColumnNames[1] == "taskseriesid" && ColumnNames[2] == "taskid"
    ensures ColumnNames[6] == "completed" && ColumnNames[7] == "listname"
  {
  }

  /** `TasksDB`: the two tables of the in-memory database. */
  class TasksDB {
    var tasks: seq<TaskRow>
    var lists: seq<ListRow>

    /** Both tables are created empty. */
    constructor ()
      ensures tasks == [] && lists == []
    {
      tasks := [];
      lists := [];
    }

    /** `_cleanDatabaseEntries`: deletes every row of one table. */
    method CleanDatabaseEntries(table: Table)
      modifies this
      ensures table == TasksTable ==> tasks == [] && lists == old(lists)
      ensures table == ListsTable ==> lists == [] && tasks == old(tasks)
    {
      match table
      case TasksTable => tasks := [];
      case ListsTable => lists := [];
    }

    /** `storeTasks`: the tasks table becomes one row per task series of the response; lists are untouched. */
    method StoreTasks(taskLists: seq<TaskList>)
      modifies this
      ensures tasks == TaskRows(taskLists)
      ensures lists == old(lists)
    {
      CleanDatabaseEntries(TasksTable);
      var i := 0;
      while i < |taskLists|
        invariant 0 <= i <= |taskLists|
        invariant tasks == TaskRows(taskLists[..i])
        invariant lists == old(lists)
      {
        var taskList := taskLists[i];
        StoreSeries(taskList.id, taskList.series);
        assert taskLists[..i + 1] == taskLists[..i] + [taskList];
        TaskRowsSnoc(taskLists[..i], taskList);
        i := i + 1;
      }
      assert taskLists[..i] == taskLists;
    }

    /** The inner loop of `storeTasks`: one row per task series of one list, appended in order. */
    method StoreSeries(listId: string, series: seq<TaskSeries>)
      modifies this`tasks
      ensures tasks == old(tasks) + SeriesRows(listId, series)
    {
      var k := 0;
      while k < |series|
        invariant 0 <= k <= |series|
        invariant |tasks| == |old(tasks)| + k
        invariant forall j :: 0 <= j < |old(tasks)| ==> tasks[j] == old(tasks)[j]
        invariant forall j :: 0 <= j < k ==> tasks[|old(tasks)| + j] == RowOf(listId, series[j])
      {
        tasks := tasks + [RowOf(listId, series[k])];
        k := k + 1;
      }
      assert tasks == old(tasks) + SeriesRows(listId, series);
    }

    /** `storeLists`: the lists table becomes one (id, name) row per entry; tasks are untouched. */
    method StoreLists(entries: seq<ListEntry>)
      modifies this
      ensures lists == ListRows(entries)
      ensures tasks == old(tasks)
    {
      CleanDatabaseEntries(ListsTable);
      var i := 0;
      while i < |entries|
        invariant 0 <= i <= |entries|
        invariant |lists| == i && forall j :: 0 <= j < i ==> lists[j] == ListRow(entries[j].id, entries[j].name)
        invariant tasks == old(tasks)
      {
        lists := lists + [ListRow(entries[i].id, entries[i].name)];
        i := i + 1;
      }
      assert lists == ListRows(entries);
    }

    /**
      `getTasks`: one record per selected joined row, ordered on `orderBy` when
      given, and every call with no `orderBy` or a selected column name succeeds.
      Any other name is an SQL error: the model accepts only the eight selected
      column names as ORDER BY terms.
    */
    method GetTasks(categoryName: Option<string>, orderBy: Option<string>, showCompleted: bool)
      returns (r: Result<seq<Record>, Error>)
      ensures orderBy.Some? && orderBy.value !in ColumnNames <==> r == Failure(SqlError)
      ensures orderBy.None? || orderBy.value in ColumnNames ==> r.Success?
      ensures r.Success? ==>
                var rows := Ordered(Query(tasks, lists, categoryName, showCompleted),
                                    if orderBy.None? then None else ColumnIndex(orderBy.value));
                && |r.value| == |rows|
                && forall i :: 0 <= i < |rows| ==> IsRecordOf(r.value[i], rows[i])
    {
      var column: Option<nat> := None;
      if orderBy.Some? {
        column := ColumnIndex(orderBy.value);
        if column.None? {
          return Failure(SqlError);
        }
      }
      var rows := Ordered(Query(tasks, lists, categoryName, showCompleted), column);
      var ldic: seq<Record> := [];
      var i := 0;
      while i < |rows|
        invariant 0 <= i <= |rows|
        invariant |ldic| == i
        invariant forall k :: 0 <= k < i ==> IsRecordOf(ldic[k], rows[k])
      {
        var d := RecordOf(rows[i]);
        ldic := ldic + [d];
        i := i + 1;
      }
      r := Success(ldic);
    }

    /**
      `getTaskById`: the record of the first joined row with the three
      identifiers, whether completed or not; ValueError when there is none.
    */
    method GetTaskById(taskId: string, listId: string, taskSeriesId: string) returns (r: Result<Record, Error>)
      ensures r.Failure? <==>
                forall j :: j in Query(tasks, lists, None, true) ==> !HasIds(j, taskId, listId, taskSeriesId)
      ensures r.Failure? ==> r.error == ValueError
      ensures r.Success? ==>
                && "tasks.listid" in r.value && r.value["tasks.listid"] == listId
                && "taskseriesid" in r.value && r.value["taskseriesid"] == taskSeriesId
                && "taskid" in r.value && r.value["taskid"] == taskId
                && exists j :: j in Query(tasks, lists, None, true) && IsRecordOf(r.value, j)
    {
      var row := FirstWithIds(Query(tasks, lists, None, true), taskId, listId, taskSeriesId);
      if row.None? {
        return Failure(ValueError);
      }
      var d := RecordOf(row.value);
      RecordIds(d, row.value);
      r := Success(d);
    }
  }

  /** Without ORDER BY the query keeps table order; with it, the rows are the same rows, sorted. */
  lemma OrderedProperties(rows: seq<Joined>, orderBy: Option<nat>)
    requires orderBy.Some? ==> orderBy.value < |ColumnNames|
    ensures multiset(Ordered(rows, orderBy)) == multiset(rows)
    ensures orderBy.Some? ==> SortedOn(Ordered(rows, orderBy), orderBy.value)
  {
    if orderBy.Some? {
      SortOnSorted(rows, orderBy.value);
    }
  }
}
