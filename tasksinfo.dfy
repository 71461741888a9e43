/**
  The task cache: the last tasks response, re-downloaded when absent or older
  than the update interval, and the selection of the tasks of one category.
*/
module TasksInfo {
  import opened Wrappers
  import opened Responses
  import opened ListsInfo

  /** `TASKS_LIST_UPDATE_INTERVAL`, in seconds. */
  const TasksListUpdateInterval: int := 20

  /** `TaskDescriptor`: what the lens shows of one task. */
  datatype TaskDescriptor = TaskDescriptor(category: string, name: string, due: string, priority: string)

  /** The descriptor of a task series shown under `category`. */
  function Describe(s: TaskSeries, category: string): TaskDescriptor
  {
    TaskDescriptor(category, s.name, s.task.due, s.task.priority)
  }

  /** A list is walked when no category is selected (id 0) or its id is the selected one. */
  predicate Included(l: TaskList, categoryId: Option<string>)
  {
    categoryId.None? || l.id == categoryId.value
  }

  function ListDescriptors(ss: seq<TaskSeries>, category: string): (r: seq<TaskDescriptor>)
    ensures |r| == |ss| && forall k :: 0 <= k < |ss| ==> r[k] == Describe(ss[k], category)
  {
    if |ss| == 0 then [] else [Describe(ss[0], category)] + ListDescriptors(ss[1..], category)
  }

  /**
    The descriptors of the walked lists, list by list; the name of a walked list
    with at least one series is looked up in `names`, and a missing one ends the
    walk with UnboundLocalError.
  */
  function Collect(ls: seq<TaskList>, categoryId: Option<string>, names: map<string, string>): Result<seq<TaskDescriptor>, Error>
  {
    if |ls| == 0 then Success([])
    else
      var prev := Collect(ls[..|ls| - 1], categoryId, names);
      var l := ls[|ls| - 1];
      if prev.Failure? || !Included(l, categoryId) || |l.series| == 0 then prev
      else if l.id !in names then Failure(UnboundLocalError)
      else Success(prev.value + ListDescriptors(l.series, names[l.id]))
  }

  /** A walked, non-empty list whose id has no name. */
  predicate Unnamed(l: TaskList, categoryId: Option<string>, names: map<string, string>)
  {
    Included(l, categoryId) && |l.series| > 0 && l.id !in names
  }

  /** The walk fails exactly when some walked list with series has no name, and then with UnboundLocalError. */
  lemma {:induction false} CollectFails(ls: seq<TaskList>, categoryId: Option<string>, names: map<string, string>)
    ensures Collect(ls, categoryId, names).Failure? <==> exists i :: 0 <= i < |ls| && Unnamed(ls[i], categoryId, names)
    ensures Collect(ls, categoryId, names).Failure? ==> Collect(ls, categoryId, names).error == UnboundLocalError
  {
    if |ls| > 0 {
      var front := ls[..|ls| - 1];
      CollectFails(front, categoryId, names);
      if exists i :: 0 <= i < |front| && Unnamed(front[i], categoryId, names) {
        var i :| 0 <= i < |front| && Unnamed(front[i], categoryId, names);
        assert ls[i] == front[i];
      }
      if exists i :: 0 <= i < |ls| && Unnamed(ls[i], categoryId, names) {
        var i :| 0 <= i < |ls| && Unnamed(ls[i], categoryId, names);
        if i < |front| {
          assert front[i] == ls[i];
        }
      }
    }
  }

  /** `d` describes one of the series of `l`, a walked list with a name. */
  predicate DescribesSeriesOf(d: TaskDescriptor, l: TaskList, categoryId: Option<string>, names: map<string, string>)
  {
    Included(l, categoryId) && l.id in names && exists k :: 0 <= k < |l.series| && d == Describe(l.series[k], names[l.id])
  }

  lemma ListDescriptorsMembers(ss: seq<TaskSeries>, category: string, d: TaskDescriptor)
    ensures d in ListDescriptors(ss, category) <==> exists k :: 0 <= k < |ss| && d == Describe(ss[k], category)
  {
    var r := ListDescriptors(ss, category);
    if d in r {
      var k :| 0 <= k < |r| && r[k] == d;
    }
    if exists k :: 0 <= k < |ss| && d == Describe(ss[k], category) {
      var k :| 0 <= k < |ss| && d == Describe(ss[k], category);
      assert r[k] == d;
    }
  }

  /**
    A successful walk holds exactly the descriptors of the series of the walked
    lists, each under its list's name, with name, due and priority copied.
  */
  lemma {:induction false} CollectMembers(ls: seq<TaskList>, categoryId: Option<string>, names: map<string, string>, d: TaskDescriptor)
    requires Collect(ls, categoryId, names).Success?
    ensures d in Collect(ls, categoryId, names).value <==>
            exists i :: 0 <= i < |ls| && DescribesSeriesOf(d, ls[i], categoryId, names)
  {
    if |ls| > 0 {
      var front := ls[..|ls| - 1];
      var l := ls[|ls| - 1];
      CollectStep(ls, categoryId, names);
      CollectMembers(front, categoryId, names, d);
      if Included(l, categoryId) && |l.series| > 0 {
        ListDescriptorsMembers(l.series, names[l.id], d);
      }
      assert ls == front + [l];
      DescribedSnoc(front, l, categoryId, names, d);
    }
  }

  /** A successful walk of one more list adds that list's descriptors, if it is walked and named. */
  lemma CollectStep(ls: seq<TaskList>, categoryId: Option<string>, names: map<string, string>)
    requires |ls| > 0 && Collect(ls, categoryId, names).Success?
    ensures var l := ls[|ls| - 1];
            && Collect(ls[..|ls| - 1], categoryId, names).Success?
            && Collect(ls, categoryId, names).value ==
               Collect(ls[..|ls| - 1], categoryId, names).value +
               (if Included(l, categoryId) && |l.series| > 0 then ListDescriptors(l.series, names[l.id]) else [])
  {
  }

  /** Some list of `front + [l]` has `d` among its series' descriptors iff some list of `front` does or `l` does. */
  lemma DescribedSnoc(front: seq<TaskList>, l: TaskList, categoryId: Option<string>, names: map<string, string>, d: TaskDescriptor)
    ensures (exists i :: 0 <= i < |front| + 1 && DescribesSeriesOf(d, (front + [l])[i], categoryId, names)) <==>
            (exists i :: 0 <= i < |front| && DescribesSeriesOf(d, front[i], categoryId, names))
            || DescribesSeriesOf(d, l, categoryId, names)
  {
    var ls := front + [l];
    if exists i :: 0 <= i < |front| && DescribesSeriesOf(d, front[i], categoryId, names) {
      var i :| 0 <= i < |front| && DescribesSeriesOf(d, front[i], categoryId, names);
      assert ls[i] == front[i];
    }
    if DescribesSeriesOf(d, l, categoryId, names) {
      assert ls[|front|] == l;
    }
    if exists i :: 0 <= i < |ls| && DescribesSeriesOf(d, ls[i], categoryId, names) {
      var i :| 0 <= i < |ls| && DescribesSeriesOf(d, ls[i], categoryId, names);
      if i < |front| {
        assert front[i] == ls[i];
      }
    }
  }

  /** With a selected category, every descriptor comes from a list with that id and carries its name. */
  lemma OnlyCategory(ls: seq<TaskList>, id: string, names: map<string, string>, d: TaskDescriptor)
    requires Collect(ls, Some(id), names).Success? && d in Collect(ls, Some(id), names).value
    ensures id in names && d.category == names[id]
    ensures exists i :: 0 <= i < |ls| && ls[i].id == id && DescribesSeriesOf(d, ls[i], Some(id), names)
  {
    CollectMembers(ls, Some(id), names, d);
  }

  /** Once the walk has failed, walking further lists keeps the same failure. */
  lemma {:induction false} CollectFailurePersists(ls: seq<TaskList>, n: nat, categoryId: Option<string>, names: map<string, string>)
    requires n <= |ls| && Collect(ls[..n], categoryId, names).Failure?
    ensures Collect(ls, categoryId, names) == Collect(ls[..n], categoryId, names)
    decreases |ls| - n
  {
    if n < |ls| {
      assert ls[..n + 1][..n] == ls[..n];
      CollectFailurePersists(ls, n + 1, categoryId, names);
    } else {
      assert ls[..n] == ls;
    }
  }

  /** `TasksInfoManager`. */
  class TasksInfoManager {
    /** the last tasks response, if any */
    var tasksList: Option<seq<TaskList>>
    /** when it was downloaded, in seconds */
    var timestamp: int
    const listsManager: ListsInfoManager

    constructor (listsManager: ListsInfoManager)
      ensures tasksList == None && timestamp == 0 && this.listsManager == listsManager
    {
      tasksList := None;
      timestamp := 0;
      this.listsManager := listsManager;
    }

    /** `_tasksListExpired` at time `now`. */
    predicate TasksListExpired(now: int)
      reads this
    {
      now - timestamp > TasksListUpdateInterval
    }

    /** The list id `getTasksOfCategory` selects: None (all lists) when the name is unknown. */
    function CategoryId(categoryName: string): (r: Option<string>)
      reads listsManager
      ensures r.Some? <==> listsManager.GetListId(categoryName).Success?
      ensures r.Some? ==> r.value == listsManager.reverse[categoryName]
    {
      match listsManager.GetListId(categoryName)
      case Success(id) => Some(id)
      case Failure(_) => None
    }

    /**
      `downloadTasksList`, where `tasksResponse` and `listsResponse` are what
      the service would answer. The clock is read twice: `now` for the expiry
      test, and `stampedAt` once both downloads have returned. It fetches only
      when nothing is cached or the cache has expired, then rebuilds the lists
      dictionaries and records the second reading.
    */
    method DownloadTasksList(now: int, stampedAt: int, tasksResponse: Result<seq<TaskList>, Error>,
                             listsResponse: Result<seq<ListEntry>, Error>)
      returns (r: Result<(), Error>)
      modifies this, listsManager
      ensures old(tasksList).Some? && !old(TasksListExpired(now)) ==>
                && r.Success? && tasksList == old(tasksList) && timestamp == old(timestamp)
                && unchanged(listsManager)
      ensures (old(tasksList).None? || old(TasksListExpired(now))) && tasksResponse.Failure? ==>
                && r == Failure(tasksResponse.error) && tasksList == old(tasksList) && timestamp == old(timestamp)
                && unchanged(listsManager)
      ensures (old(tasksList).None? || old(TasksListExpired(now))) && tasksResponse.Success? ==>
                && tasksList == Some(tasksResponse.value)
                && listsManager.BuiltFrom(old(listsManager.forward), old(listsManager.reverse),
                                          old(listsManager.cached), listsResponse, r)
                && timestamp == if r.Success? then stampedAt else old(timestamp)
    {
      if tasksList == None || TasksListExpired(now) {
        match tasksResponse
        case Failure(e) =>
          return Failure(e);
        case Success(ls) =>
          tasksList := Some(ls);
          r := listsManager.BuildTheListsDictionary(listsResponse);
          if r.Failure? {
            return;
          }
          timestamp := stampedAt;
      } else {
        r := Success(());
      }
    }

    /**
      `getTasksOfCategory`: the descriptors of the cached tasks of the named
      list, or of every list when the name is unknown; AttributeError when no
      tasks were downloaded.
    */
    method GetTasksOfCategory(categoryName: string) returns (r: Result<seq<TaskDescriptor>, Error>)
      ensures tasksList.None? ==> r == Failure(AttributeError)
      ensures tasksList.Some? ==> r == Collect(tasksList.value, CategoryId(categoryName), listsManager.forward)
    {
      var categoryId := CategoryId(categoryName);
      if tasksList.None? {
        return Failure(AttributeError);
      }
      var ls := tasksList.value;
      var names := listsManager.forward;
      var tasks: seq<TaskDescriptor> := [];
      var i := 0;
      while i < |ls|
        invariant 0 <= i <= |ls|
        invariant Collect(ls[..i], categoryId, names) == Success(tasks)
      {
        var taskList := ls[i];
        assert ls[..i + 1][..i] == ls[..i] && ls[..i + 1][i] == taskList;
        if categoryId.Some? && taskList.id != categoryId.value {
          assert Collect(ls[..i + 1], categoryId, names) == Collect(ls[..i], categoryId, names);
          i := i + 1;
          continue;
        }
        var listTasks := SeriesDescriptors(taskList);
        if listTasks.Failure? {
          assert Collect(ls[..i + 1], categoryId, names) == Failure(UnboundLocalError);
          CollectFailurePersists(ls, i + 1, categoryId, names);
          return Failure(listTasks.error);
        }
        assert Collect(ls[..i + 1], categoryId, names) == Success(tasks + listTasks.value) by {
          if |taskList.series| == 0 {
            assert tasks + listTasks.value == tasks;
          }
        }
        tasks := tasks + listTasks.value;
        i := i + 1;
      }
      assert ls[..i] == ls;
      r := Success(tasks);
    }

    /**
      The inner loop of `getTasksOfCategory`: the descriptor of each series of
      one list, under the list's name; UnboundLocalError at the first series
      when the list's id has no name.
    */
    method SeriesDescriptors(taskList: TaskList) returns (r: Result<seq<TaskDescriptor>, Error>)
      ensures |taskList.series| == 0 ==> r == Success([])
      ensures |taskList.series| > 0 && taskList.id !in listsManager.forward ==> r == Failure(UnboundLocalError)
      ensures |taskList.series| > 0 && taskList.id in listsManager.forward ==>
                r == Success(ListDescriptors(taskList.series, listsManager.forward[taskList.id]))
    {
      var tasks: seq<TaskDescriptor> := [];
      var k := 0;
      while k < |taskList.series|
        invariant 0 <= k <= |taskList.series|
        invariant k > 0 ==> taskList.id in listsManager.forward
        invariant tasks == if k == 0 then [] else ListDescriptors(taskList.series[..k], listsManager.forward[taskList.id])
      {
        var category := listsManager.GetListName(taskList.id);
        if category.Failure? {
          return Failure(category.error);
        }
        var taskseries := taskList.series[k];
        var descriptor := Describe(taskseries, category.value);
        assert taskList.series[..k + 1] == taskList.series[..k] + [taskseries];
        assert ListDescriptors(taskList.series[..k + 1], category.value)
            == ListDescriptors(taskList.series[..k], category.value) + [descriptor];
        tasks := tasks + [descriptor];
        k := k + 1;
      }
      assert taskList.series[..k] == taskList.series;
      r := Success(tasks);
    }
  }

  /** At exactly the update interval the cache is still fresh; one second later it has expired. */
  lemma ExpiryBoundary(m: TasksInfoManager)
    ensures !m.TasksListExpired(m.timestamp + TasksListUpdateInterval)
    ensures m.TasksListExpired(m.timestamp + TasksListUpdateInterval + 1)
  {
  }
}
