/**
 * The human-readable activity line the broadcaster builds from a task
 * event (`EventBroadcaster._create_activity_message`), and a reader that
 * recovers the event kind and title from such a line.
 */
module Activity {
  import opened Models

  /** The title an activity line shows; a dump without a title shows "Unknown Task". */
  function TaskTitle(data: map<string, Value>): (title: string)
    ensures "title" !in data ==> title == "Unknown Task"
    ensures "title" in data && data["title"].Str? ==> title == data["title"].s
  {
    if "title" in data then Render(data["title"]) else "Unknown Task"
  }

  /**
   * The activity message for an event type, emoji prefixes included. The
   * if-chain mirrors the source; `Prefix` below spells the same four
   * prefixes again, and ActivityMessageShape proves the two copies agree.
   */
  function ActivityMessage(eventType: string, data: map<string, Value>): (msg: string)
    ensures ParseActivity(msg) == Some((KindOf(eventType), TaskTitle(data)))
  {
    ParseOfPrefixed(KindOf(eventType), TaskTitle(data));
    var title := TaskTitle(data);
    if eventType == "task_added" then "\U{2795} New task added: '" + title + "'"
    else if eventType == "task_completed" then "\U{2705} Task completed: '" + title + "'"
    else if eventType == "task_deleted" then "\U{1F5D1}\U{FE0F} Task deleted: '" + title + "'"
    else "Task updated: '" + title + "'"
  }

  /** The four shapes an activity message can take. */
  datatype EventKind = Added | Completed | Deleted | Updated

  /** Which shape an event type selects; every unknown type reads as an update. */
  function KindOf(eventType: string): EventKind
  {
    if eventType == "task_added" then Added
    else if eventType == "task_completed" then Completed
    else if eventType == "task_deleted" then Deleted
    else Updated
  }

  /** Everything a message of kind `k` shows before the title. */
  function Prefix(k: EventKind): string
  {
    match k
    case Added => "\U{2795} New task added: '"
    case Completed => "\U{2705} Task completed: '"
    case Deleted => "\U{1F5D1}\U{FE0F} Task deleted: '"
    case Updated => "Task updated: '"
  }

  /** Reads a message back into its kind and title; `None` for any other text. */
  function ParseActivity(msg: string): Option<(EventKind, string)>
  {
    if |msg| == 0 || msg[|msg| - 1] != '\'' then None
    else
      var body := msg[..|msg| - 1];
      if Prefix(Added) <= body then Some((Added, body[|Prefix(Added)|..]))
      else if Prefix(Completed) <= body then Some((Completed, body[|Prefix(Completed)|..]))
      else if Prefix(Deleted) <= body then Some((Deleted, body[|Prefix(Deleted)|..]))
      else if Prefix(Updated) <= body then Some((Updated, body[|Prefix(Updated)|..]))
      else None
  }

  /** Every message is its kind's prefix, the title, and a closing quote. */
  lemma ActivityMessageShape(eventType: string, data: map<string, Value>)
    ensures ActivityMessage(eventType, data) == Prefix(KindOf(eventType)) + TaskTitle(data) + "'"
  {
  }

  /** The prefixes differ in their first character, so none starts another. */
  lemma PrefixesDistinct(k: EventKind, j: EventKind, rest: string)
    requires k != j
    ensures !(Prefix(j) <= Prefix(k) + rest)
  {
    assert (Prefix(k) + rest)[0] == Prefix(k)[0];
  }

  /** Reading back the line built from a message recovers its kind and title. */
  lemma ParseOfPrefixed(k: EventKind, title: string)
    ensures ParseActivity(Prefix(k) + title + "'") == Some((k, title))
  {
    var msg := Prefix(k) + title + "'";
    var body := msg[..|msg| - 1];
    assert body == Prefix(k) + title;
    assert body[|Prefix(k)|..] == title;
    assert Prefix(k) <= body;
    if k != Added { PrefixesDistinct(k, Added, title); }
    if k != Completed { PrefixesDistinct(k, Completed, title); }
    if k != Deleted { PrefixesDistinct(k, Deleted, title); }
  }

  /** Every parsed message is exactly the line its kind and title build. */
  lemma ParsedIsPrefixed(msg: string, k: EventKind, title: string)
    requires ParseActivity(msg) == Some((k, title))
    ensures msg == Prefix(k) + title + "'"
  {
    var body := msg[..|msg| - 1];
    assert body == Prefix(k) + title;
    assert msg == body + "'";
  }

  /** Round trip: the message names its event kind and the task's title (ActivityMessage's own ensures, as a lemma). */
  lemma ParseActivityMessage(eventType: string, data: map<string, Value>)
    ensures ParseActivity(ActivityMessage(eventType, data)) == Some((KindOf(eventType), TaskTitle(data)))
  {
    ActivityMessageShape(eventType, data);
    ParseOfPrefixed(KindOf(eventType), TaskTitle(data));
  }

  /** Two equal messages come from the same kind of event on the same title. */
  lemma ActivityMessageInjective(e1: string, d1: map<string, Value>, e2: string, d2: map<string, Value>)
    requires ActivityMessage(e1, d1) == ActivityMessage(e2, d2)
    ensures KindOf(e1) == KindOf(e2) && TaskTitle(d1) == TaskTitle(d2)
  {
    ParseActivityMessage(e1, d1);
    ParseActivityMessage(e2, d2);
  }

  /** A dumped task always carries its own title, so "Unknown Task" never shows for one. */
  lemma TitleOfDump(t: Task)
    ensures TaskTitle(Dump(t)) == t.title
  {
  }
}
