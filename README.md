# Real-time task monitor: broadcaster and task table

This project models the two sequential cores of a small dashboard server
that pushes task activity and system metrics to browsers over Server-Sent
Events.

* **The event broadcaster** (`events.py`, class `EventBroadcaster`) keeps two
  lists of client mailboxes, one for the activity topic and one for the
  metrics topic. It registers and unregisters mailboxes. It fans one framed
  payload (`"data: " + html + "\n\n"`) out to every mailbox of one topic. It
  collects the mailboxes whose put failed during that pass and evicts them
  only after it. It also maps a task event type and title to a fixed
  activity line.
* **The in-memory task table** (`main.py`: `add_task`, `complete_task`,
  `delete_task`) maps ids to tasks and keeps a `next_task_id` counter that
  starts at 1. Each successful mutation makes exactly one
  `broadcast_task_event` call. An unknown id is a 404 "Task not found" that
  changes nothing.

Files and modules:

* `models.dfy`, module `Models`: the `Task` record, the JSON-mode dump
  `model_dump(mode='json')` as a map of values with a reader that inverts
  it, and Python's `str()` of such a value.
* `registry.dfy`, module `Registry`: the list facts the broadcaster needs.
  `Drop(s, gone)` is the order-preserving filter that says what survives an
  eviction. `RemoveFirst` is Python's `list.remove`. The lemmas cover
  duplicate-freedom, idempotence, absent elements, order and composition.
* `activity.dfy`, module `Activity`: `_create_activity_message` as
  `ActivityMessage`, with its emoji prefixes, and the "Unknown Task" default.
  `ParseActivity` is an independent reader of those lines. The round-trip
  lemmas show that each line names its event kind and title.
* `events.dfy`, module `Events`: `Mailbox` (a class owning its queue of
  pending payloads), the iteration pass `FanOut`, and the class
  `EventBroadcaster` with its registry methods and broadcasts.
* `main.dfy`, module `App`: the class `TaskTable`, wired to a broadcaster,
  with a ghost log of the `broadcast_task_event` calls it made. It also holds
  the stream handlers' clean-up, which removes a mailbox once or twice, and
  the "Buy milk" scenario.

Modelling choices:

* A mailbox is an object identity. An `asyncio.Queue` is unbounded, so its
  `put` cannot fail in practice. The failure path is therefore a parameter:
  `failing` is the set of mailboxes whose put raises during this broadcast.
  A failed put leaves that queue unchanged.
* Timestamps are parameters: `created_at` of a new task, and the
  `%H:%M:%S` clock text of a broadcast.
* The broadcaster's invariant `Valid()` says each topic lists a mailbox at
  most once and no mailbox is on both topics. Registration only ever adds a
  fresh mailbox, so the invariant always holds. It is what makes "each
  registered mailbox gets the payload exactly once" provable.
* `complete_task` sets `completed` on the stored pydantic object in place.
  Only the dictionary holds that object, so the model updates the map entry
  by value.
* Each handler returns the task it acted on, or `HttpError(404, "Task not
  found")`. The source returns a rendered task list instead.
* The activity lines keep the code's emoji prefixes: "➕ ", "✅ " and "🗑️ "
  before the first three lines (code points U+2795, U+2705, and U+1F5D1
  U+FE0F); the "Task updated" line has none.
* Titles are not checked by the task table: any string, the empty one
  included, is stored and shown as it is.

## Model

| member | source | states |
|---|---|---|
| `Models.Dump` | main.py:64 | `model_dump(mode='json')` has exactly the four field keys, and the independent reader `FromDump` gets the same task back from it |
| `Models.Render` | events.py:97-102 | a string value prints as itself, a boolean as "True" or "False", and an integer as canonical decimal text (digits only, no leading zero, a leading minus when negative) that spells its value; the non-string cases cover title values no caller produces, since a task dump's title is always a string (models.py:8) |
| `Models.DumpRoundTrip` | models.py:6-10 | reading a task's JSON-mode dump back gives the same task, so the data handed to the broadcaster carries every field |
| `Models.DumpInjective` | models.py:6-10 | two tasks with the same dump are the same task |
| `Models.NatToDecimalValue` | events.py:95-102 | the decimal text printed for a number spells that number; this covers an integer title value, which no caller produces since a task dump's title is always a string (models.py:8) |
| `Registry.Drop` | events.py:42-51 | the list that survives an eviction holds exactly the elements of the old list that were not evicted, and is no longer than it |
| `Registry.IndexOf` | events.py:20-21 | the position found holds the element and no earlier position does |
| `Registry.RemoveFirst` | events.py:20-21 | `list.remove` deletes exactly the first occurrence and keeps everything before and after it |
| `Registry.RemoveFirstIsDrop` | events.py:19-21 | in a duplicate-free list, removing a present mailbox is the same as evicting exactly that mailbox |
| `Registry.DropAbsent` | events.py:19-21 | removing mailboxes that are not registered leaves the list unchanged |
| `Registry.DropIdempotent` | main.py:134-138 | removing the same mailbox(es) twice gives the same list as removing them once |
| `Registry.DropDrop` | events.py:49-51 | evicting one collected mailbox after another gives the eviction of all of them together |
| `Registry.DropAgree` | events.py:42-51 | only which registered mailboxes failed matters; failing mailboxes outside the list change nothing |
| `Registry.DropIsSubsequence` | events.py:49-51 | the surviving mailboxes keep their original relative order |
| `Registry.DropNoDup` | events.py:19-21 | eviction never introduces a duplicate registration |
| `Activity.TaskTitle` | events.py:95 | a task dump without a title gives "Unknown Task"; a string title is shown as it is |
| `Activity.ActivityMessage` | events.py:94-102 | the activity line for an event reads back, through the independent reader, as the event's kind and the task's title |
| `Activity.ActivityMessageShape` | events.py:94-102 | each activity line is the prefix of its event kind, the title and a closing quote; unknown event types give the "Task updated" line |
| `Activity.ParseOfPrefixed` | events.py:96-102 | reading a line built from a kind's prefix and a title gives back that kind and title |
| `Activity.ParsedIsPrefixed` | events.py:96-102 | any line the reader accepts is exactly the line its kind and title build |
| `Activity.ParseActivityMessage` | events.py:94-102 | round trip: the activity line for an event can be read back as its event kind and the task's title |
| `Activity.ActivityMessageInjective` | events.py:94-102 | two equal activity lines come from the same kind of event and the same title |
| `Activity.TitleOfDump` | events.py:95 | the title shown for a dumped task is that task's title |
| `Events.Frame` | events.py:39 | the Server-Sent Events frame is "data: ", the payload verbatim, then a blank line; used for both topics (events.py:62) and in BroadcastActivity's and BroadcastMetrics' ensures |
| `Events.ActivityHtml` | events.py:37 | the activity fragment opens with the item's tags and then shows the message verbatim; used in BroadcastActivity's ensures |
| `Events.Mailbox.constructor` | events.py:15 | a new mailbox has no pending payloads |
| `Events.Mailbox.Put` | events.py:45 | a put appends the payload at the tail and keeps everything queued before it in front (FIFO) |
| `Events.FanOut` | events.py:42-47 | every non-failing mailbox of the list gets the payload appended exactly once, failing ones are unchanged, and the collected list holds exactly the failing registered mailboxes |
| `Events.EventBroadcaster.constructor` | events.py:10-12 | a new broadcaster has two empty client lists |
| `Events.EventBroadcaster.AddActivityClient` | events.py:14-17 | appends one fresh empty mailbox at the end of the activity list, returns it, and leaves the metrics list unchanged |
| `Events.EventBroadcaster.RemoveActivityClient` | events.py:19-21 | the activity list loses exactly that mailbox, or is unchanged when it is absent; the metrics list is unchanged |
| `Events.EventBroadcaster.AddMetricsClient` | events.py:23-26 | appends one fresh empty mailbox at the end of the metrics list, returns it, and leaves the activity list unchanged |
| `Events.EventBroadcaster.RemoveMetricsClient` | events.py:28-30 | the metrics list loses exactly that mailbox, or is unchanged when it is absent; the activity list is unchanged |
| `Events.EventBroadcaster.BroadcastActivity` | events.py:32-51 | each activity mailbox registered at call time gets the framed fragment at its tail unless its put failed; afterwards the activity list has exactly the failing mailboxes evicted, in the original order; the metrics list and metrics mailboxes are untouched; with no clients nothing changes |
| `Events.EventBroadcaster.BroadcastMetrics` | events.py:53-74 | the same for the metrics topic, with the rendered metrics fragment, leaving the activity topic untouched |
| `Events.EventBroadcaster.BroadcastTaskEvent` | events.py:76-81 | publishes the event's activity line on the activity topic, with the effect of BroadcastActivity |
| `App.TaskTable.constructor` | main.py:13-15 | the table starts empty with the id counter at 1 and no broadcasts made |
| `App.TaskTable.AddTask` | main.py:55-64 | stores a new uncompleted task under the old counter value, with that id; the counter grows by exactly 1; the new id is larger than every id handed out before and every id in the table; exactly one "task_added" broadcast with the new task's dump |
| `App.TaskTable.CompleteTask` | main.py:75-84 | an absent id gives 404 with no change and no broadcast; a present one has only its completed flag set, keeps the key set, and makes exactly one "task_completed" broadcast with the completed task's dump |
| `App.TaskTable.DeleteTask` | main.py:95-103 | an absent id gives 404 with no change and no broadcast; a present one loses exactly that key, does not change the id counter, and makes exactly one "task_deleted" broadcast with the removed task's dump |
| `App.EndActivityStream` | main.py:122-138 | a stream's clean-up, whether it removes its mailbox once or twice, leaves the list with exactly that mailbox removed |
| `App.EndMetricsStream` | main.py:150-166 | the same for a metrics stream |
| `App.BuyMilkMessages` | events.py:96-99 | for a task titled "Buy milk", the added and completed lines are exactly "➕ New task added: 'Buy milk'" and "✅ Task completed: 'Buy milk'" |
| `App.BuyMilkScenario` | main.py:55-84 | adding "Buy milk" to an empty table gives id 1; completing it leaves a subscriber with exactly two frames, "➕ New task added: 'Buy milk'" then "✅ Task completed: 'Buy milk'" |

## Left out

- The stream handlers' wait on the queue with a 30-second timeout, the `: heartbeat` frame and the propagation of cancellation (main.py:122-175) are timers and async cancellation. Only the two removals on the cancel path and the final path are modelled.
- `start_metrics_task` and `broadcast_system_metrics` (the psutil sampling, the sleeps, the endless loop and the catch-all logging) sample the OS and keep time, so they are not modelled.
- The metrics fragment's rendering (one-decimal float formatting and the over-80 colour thresholds) is floating point. `BroadcastMetrics` takes the rendered fragment as an opaque string.
- `datetime.now()` is a clock. Both the task's creation time and the broadcast's clock text are parameters.
- Concurrency: each broadcast is modelled as one atomic step. In the source, `await put` on an unbounded queue never suspends, so no other handler runs during the pass.
- The activity fragment's HTML is carried as an opaque string; escaping and HTML validity are not claimed.
- Reading from a mailbox (`queue.get`) belongs to the stream handlers' timed wait and is not modelled.
- The FastAPI lifespan, routing, templates, static files, the dashboard and `get_tasks` listings and the `/test-sse` page are request/response plumbing and are not modelled.
- test_sse_events.py (a demo generator with random sleeps) and static/app.js (browser code) are not part of this model.
- Pydantic validation of `Task` and of the form field is not modelled; the model puts no requirement on titles.
