/**
 * The in-memory task table behind the create, complete and delete
 * handlers, each of which publishes exactly one task event on success,
 * and the clean-up a stream handler runs when its connection ends.
 */
module App {
  import opened Registry
  import opened Models
  import opened Activity
  import opened Events

  /** One call of `broadcast_task_event`: the event type and the task dump it carried. */
  datatype TaskEvent = TaskEvent(eventType: string, data: map<string, Value>)

  /** A handler's answer: the task it acted on, or the HTTP error it raised. */
  datatype Outcome = Done(task: Task) | HttpError(status: int, detail: string)

  const NotFound: Outcome := HttpError(404, "Task not found")

  class TaskTable {
    const broadcaster: EventBroadcaster
    var tasks: map<int, Task>
    var nextTaskId: int
    /** Every id handed out so far, in the order it was handed out. */
    ghost var issued: seq<int>
    /** Every `broadcast_task_event` call made so far. */
    ghost var calls: seq<TaskEvent>

    /**
     * Ids are handed out as 1, 2, 3, ...; the next one is `nextTaskId`;
     * each stored task sits under its own id, which was handed out.
     */
    ghost predicate Valid()
      reads this, broadcaster
    {
      && broadcaster.Valid()
      && nextTaskId >= 1
      && |issued| == nextTaskId - 1
      && (forall k :: 0 <= k < |issued| ==> issued[k] == k + 1)
      && (forall id :: id in tasks ==> id in issued && tasks[id].id == id)
    }

    constructor (broadcaster: EventBroadcaster)
      requires broadcaster.Valid()
      ensures Valid() && this.broadcaster == broadcaster
      ensures tasks == map[] && nextTaskId == 1 && issued == [] && calls == []
    {
      this.broadcaster := broadcaster;
      tasks := map[];
      nextTaskId := 1;
      issued := [];
      calls := [];
    }

    /**
     * Stores a new, not yet completed task under the next id, advances the
     * counter by one and publishes "task_added" with the new task.
     */
    method AddTask(title: string, createdAt: string, timestamp: string, failing: set<Mailbox>) returns (task: Task)
      requires Valid()
      modifies this, broadcaster, set m | m in broadcaster.activityClients
      ensures Valid()
      ensures task == Task(old(nextTaskId), title, false, createdAt)
      ensures task.id !in old(tasks) && tasks == old(tasks)[task.id := task]
      ensures nextTaskId == old(nextTaskId) + 1
      ensures issued == old(issued) + [task.id]
      ensures forall j :: j in old(issued) ==> j < task.id
      ensures forall id :: id in old(tasks) ==> id < task.id
      ensures calls == old(calls) + [TaskEvent("task_added", Dump(task))]
      ensures broadcaster.activityClients == Drop(old(broadcaster.activityClients), failing)
      ensures broadcaster.metricsClients == old(broadcaster.metricsClients)
      ensures forall m :: m in old(broadcaster.activityClients) ==>
        m.pending == AfterPut(old(m.pending), m in failing, Frame(ActivityHtml(ActivityMessage("task_added", Dump(task)), timestamp)))
    {
      task := Task(nextTaskId, title, false, createdAt);
      tasks := tasks[nextTaskId := task];
      issued := issued + [nextTaskId];
      nextTaskId := nextTaskId + 1;
      calls := calls + [TaskEvent("task_added", Dump(task))];
      broadcaster.BroadcastTaskEvent("task_added", Dump(task), timestamp, failing);
    }

    /**
     * Marks the task with id `taskId` completed and publishes
     * "task_completed" with its new state; an absent id is a 404 that
     * changes nothing and publishes nothing.
     */
    method CompleteTask(taskId: int, timestamp: string, failing: set<Mailbox>) returns (r: Outcome)
      requires Valid()
      modifies this, broadcaster, set m | m in broadcaster.activityClients
      ensures Valid()
      ensures nextTaskId == old(nextTaskId) && issued == old(issued)
      ensures taskId !in old(tasks) ==>
        && r == NotFound
        && tasks == old(tasks)
        && calls == old(calls)
        && broadcaster.activityClients == old(broadcaster.activityClients)
        && broadcaster.metricsClients == old(broadcaster.metricsClients)
        && forall m :: m in old(broadcaster.activityClients) ==> m.pending == old(m.pending)
      ensures taskId in old(tasks) ==>
        && r == Done(old(tasks)[taskId].(completed := true))
        && tasks.Keys == old(tasks).Keys
        && tasks == old(tasks)[taskId := r.task]
        && calls == old(calls) + [TaskEvent("task_completed", Dump(r.task))]
        && broadcaster.activityClients == Drop(old(broadcaster.activityClients), failing)
        && broadcaster.metricsClients == old(broadcaster.metricsClients)
        && forall m :: m in old(broadcaster.activityClients) ==>
          m.pending == AfterPut(old(m.pending), m in failing, Frame(ActivityHtml(ActivityMessage("task_completed", Dump(r.task)), timestamp)))
    {
      if taskId !in tasks {
        return NotFound;
      }
      var task := tasks[taskId].(completed := true);
      tasks := tasks[taskId := task];
      calls := calls + [TaskEvent("task_completed", Dump(task))];
      broadcaster.BroadcastTaskEvent("task_completed", Dump(task), timestamp, failing);
      r := Done(task);
    }

    /**
     * Removes the task with id `taskId` and publishes "task_deleted" with
     * the removed task; the id counter is untouched. An absent id is a 404
     * that changes nothing and publishes nothing.
     */
    method DeleteTask(taskId: int, timestamp: string, failing: set<Mailbox>) returns (r: Outcome)
      requires Valid()
      modifies this, broadcaster, set m | m in broadcaster.activityClients
      ensures Valid()
      ensures nextTaskId == old(nextTaskId) && issued == old(issued)
      ensures taskId !in old(tasks) ==>
        && r == NotFound
        && tasks == old(tasks)
        && calls == old(calls)
        && broadcaster.activityClients == old(broadcaster.activityClients)
        && broadcaster.metricsClients == old(broadcaster.metricsClients)
        && forall m :: m in old(broadcaster.activityClients) ==> m.pending == old(m.pending)
      ensures taskId in old(tasks) ==>
        && r == Done(old(tasks)[taskId])
        && tasks == old(tasks) - {taskId}
        && calls == old(calls) + [TaskEvent("task_deleted", Dump(r.task))]
        && broadcaster.activityClients == Drop(old(broadcaster.activityClients), failing)
        && broadcaster.metricsClients == old(broadcaster.metricsClients)
        && forall m :: m in old(broadcaster.activityClients) ==>
          m.pending == AfterPut(old(m.pending), m in failing, Frame(ActivityHtml(ActivityMessage("task_deleted", Dump(r.task)), timestamp)))
    {
      if taskId !in tasks {
        return NotFound;
      }
      var task := tasks[taskId];
      tasks := tasks - {taskId};
      calls := calls + [TaskEvent("task_deleted", Dump(task))];
      broadcaster.BroadcastTaskEvent("task_deleted", Dump(task), timestamp, failing);
      r := Done(task);
    }
  }

  /**
   * Clean-up of an activity stream: a cancelled stream unregisters its
   * mailbox on the cancel path and again on the final path; either way the
   * result is that of one removal.
   */
  method EndActivityStream(b: EventBroadcaster, q: Mailbox, cancelled: bool)
    requires b.Valid()
    modifies b
    ensures b.Valid()
    ensures b.activityClients == Drop(old(b.activityClients), {q})
    ensures b.metricsClients == old(b.metricsClients)
  {
    if cancelled {
      b.RemoveActivityClient(q);
    }
    b.RemoveActivityClient(q);
    DropIdempotent(old(b.activityClients), {q});
  }

  /** The same clean-up for a metrics stream. */
  method EndMetricsStream(b: EventBroadcaster, q: Mailbox, cancelled: bool)
    requires b.Valid()
    modifies b
    ensures b.Valid()
    ensures b.metricsClients == Drop(old(b.metricsClients), {q})
    ensures b.activityClients == old(b.activityClients)
  {
    if cancelled {
      b.RemoveMetricsClient(q);
    }
    b.RemoveMetricsClient(q);
    DropIdempotent(old(b.metricsClients), {q});
  }

  /** The two activity lines of the scenario below, spelled out. */
  lemma BuyMilkMessages(task: Task)
    requires task.title == "Buy milk"
    ensures ActivityMessage("task_added", Dump(task)) == "\U{2795} New task added: 'Buy milk'"
    ensures ActivityMessage("task_completed", Dump(task.(completed := true))) == "\U{2705} Task completed: 'Buy milk'"
  {
    TitleOfDump(task);
    TitleOfDump(task.(completed := true));
    ActivityMessageShape("task_added", Dump(task));
    ActivityMessageShape("task_completed", Dump(task.(completed := true)));
  }

  /**
   * One activity subscriber; "Buy milk" is added and then completed. The
   * subscriber's queue holds exactly the two activity lines, in order.
   */
  method BuyMilkScenario(createdAt: string, t1: string, t2: string) returns (feed: seq<string>, firstId: int)
    ensures firstId == 1
    ensures feed == [
      Frame(ActivityHtml("\U{2795} New task added: 'Buy milk'", t1)),
      Frame(ActivityHtml("\U{2705} Task completed: 'Buy milk'", t2))]
  {
    var b := new EventBroadcaster();
    var client := b.AddActivityClient();
    var table := new TaskTable(b);
    var task := table.AddTask("Buy milk", createdAt, t1, {});
    DropAbsent([client], {});
    assert client.pending == [Frame(ActivityHtml(ActivityMessage("task_added", Dump(task)), t1))];
    var r := table.CompleteTask(task.id, t2, {});
    assert r == Done(task.(completed := true));
    BuyMilkMessages(task);
    feed := client.pending;
    firstId := task.id;
  }
}
