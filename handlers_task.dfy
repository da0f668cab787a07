/** The task handlers: listing with the `all` query flag, and inspect and remove by the
    raw task ID. */
module HandlersTask {
  import opened Common
  import opened SwarmApi

  /** The `all` query flag: set by the value "1" and by nothing else. */
  function AllFlag(q: string): (r: bool)
    ensures r <==> q == "1"
  {
    assert "1"[0] == '1' && !IsSpace('1');
    TrimSpaceEmptyIffBlank("1");
    |TrimSpace(q)| != 0 && q == "1"
  }

  /** A listed task is shown when `all` is set or it is desired to be at most
      running. */
  predicate Shown(all: bool, t: Task) {
    all || t.desiredState <= TaskStateRunning
  }

  /** listTasks: the listing's error passed on, otherwise the tasks shown, in order. */
  method ListTasks(allQuery: string, listTasks: Result<seq<Task>>) returns (r: Result<seq<Task>>)
    ensures listTasks.Err? ==> r == Err(listTasks.error)
    ensures listTasks.Ok? ==> r == Ok(Filter(listTasks.value, t => Shown(AllFlag(allQuery), t)))
  {
    var all := AllFlag(allQuery);
    if listTasks.Err? {
      return Err(listTasks.error);
    }
    var tasks := FilterLoop(listTasks.value, t => Shown(all, t));
    return Ok(tasks);
  }

  /** With `all` every task is shown, as listed; otherwise exactly the tasks desired to
      be at most running, as an order-preserving subsequence. */
  lemma {:induction false} ShownSpec(all: bool, tasks: seq<Task>)
    ensures all ==> Filter(tasks, t => Shown(all, t)) == tasks
    ensures var r := Filter(tasks, t => Shown(all, t));
      && IsSubsequence(r, tasks)
      && (forall i :: 0 <= i < |r| ==> all || r[i].desiredState <= TaskStateRunning)
      && (forall i :: 0 <= i < |tasks| && tasks[i].desiredState <= TaskStateRunning ==> tasks[i] in r)
  {
    FilterIsSubsequence(tasks, t => Shown(all, t));
    if tasks != [] {
      ShownSpec(all, tasks[1..]);
    }
  }

  /** inspectTasks: the task is fetched by the raw ID, with no name resolution. */
  method InspectTask(taskID: string, getTask: string -> Result<Task>) returns (r: Result<Task>)
    ensures r == getTask(taskID)
  {
    r := getTask(taskID);
  }

  /** removeTasks: the removal is asked for the raw ID, which is answered back on
      success. */
  method RemoveTask(taskID: string, removeTask: string -> Option<Error>) returns (r: Result<string>)
    ensures removeTask(taskID).Some? ==> r == Err(removeTask(taskID).value)
    ensures removeTask(taskID).None? ==> r == Ok(taskID)
  {
    var e := removeTask(taskID);
    if e.Some? {
      return Err(e.value);
    }
    return Ok(taskID);
  }
}
