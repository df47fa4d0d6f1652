/**
 * The event broadcaster: two registries of client mailboxes, one for the
 * activity topic and one for the metrics topic, and the fan-out that puts
 * one framed payload into every registered mailbox of a topic and evicts
 * the mailboxes whose put failed once the pass is over.
 */
module Events {
  import opened Registry
  import opened Models
  import opened Activity

  /** Server-Sent Events framing of one payload. */
  function Frame(payload: string): (r: string)
    ensures |r| == |payload| + 8
    ensures r[..6] == "data: " && r[6..|r| - 2] == payload && r[|r| - 2..] == "\n\n"
  {
    "data: " + payload + "\n\n"
  }

  const ActivityItemOpen := "<div class=\"activity-item\"><div>"

  /** The activity feed fragment for one message; the message appears verbatim right after the opening tags. */
  function ActivityHtml(message: string, timestamp: string): (r: string)
    ensures |ActivityItemOpen| + |message| <= |r|
    ensures r[..|ActivityItemOpen|] == ActivityItemOpen
    ensures r[|ActivityItemOpen|..|ActivityItemOpen| + |message|] == message
  {
    ActivityItemOpen + message + "</div><div class=\"timestamp\">" + timestamp + "</div></div>"
  }

  /** A mailbox's queue after one put that either failed or appended `data`. */
  function AfterPut(pending: seq<string>, failed: bool, data: string): seq<string>
  {
    if failed then pending else pending + [data]
  }

  /** One client's unbounded FIFO queue of framed payloads. */
  class Mailbox {
    var pending: seq<string>

    constructor ()
      ensures pending == []
    {
      pending := [];
    }

    /** Appends at the tail; what was queued before stays in front. */
    method Put(item: string)
      modifies this
      ensures pending == old(pending) + [item]
    {
      pending := pending + [item];
    }
  }

  /**
   * The iteration pass of a broadcast: every client outside `failing` gets
   * `data` appended, and the clients whose put failed are collected.
   */
  method FanOut(clients: seq<Mailbox>, data: string, failing: set<Mailbox>) returns (disconnected: seq<Mailbox>)
    requires NoDup(clients)
    modifies set m | m in clients
    ensures forall m :: m in clients ==> m.pending == AfterPut(old(m.pending), m in failing, data)
    ensures forall m :: m in disconnected ==> m in clients && m in failing
    ensures forall m :: m in clients && m in failing ==> m in disconnected
  {
    disconnected := [];
    for i := 0 to |clients|
      invariant forall j :: 0 <= j < i ==> clients[j].pending == AfterPut(old(clients[j].pending), clients[j] in failing, data)
      invariant forall j :: i <= j < |clients| ==> clients[j].pending == old(clients[j].pending)
      invariant forall m :: m in disconnected ==> m in clients[..i] && m in failing
      invariant forall m :: m in clients[..i] && m in failing ==> m in disconnected
    {
      var q := clients[i];
      if q in failing {
        disconnected := disconnected + [q];
      } else {
        q.Put(data);
      }
      assert clients[..i + 1] == clients[..i] + [q];
    }
    assert clients[..|clients|] == clients;
  }

  class EventBroadcaster {
    var activityClients: seq<Mailbox>
    var metricsClients: seq<Mailbox>

    /** Each topic lists a mailbox at most once, and no mailbox is on both topics. */
    ghost predicate Valid()
      reads this
    {
      && NoDup(activityClients)
      && NoDup(metricsClients)
      && forall m :: m in activityClients ==> m !in metricsClients
    }

    constructor ()
      ensures Valid() && activityClients == [] && metricsClients == []
    {
      activityClients := [];
      metricsClients := [];
    }

    /** Registers a fresh, empty mailbox at the end of the activity list. */
    method AddActivityClient() returns (q: Mailbox)
      requires Valid()
      modifies this
      ensures Valid() && fresh(q) && q.pending == []
      ensures activityClients == old(activityClients) + [q]
      ensures metricsClients == old(metricsClients)
    {
      q := new Mailbox();
      activityClients := activityClients + [q];
    }

    /** Unregisters `q` from the activity list; a mailbox that is not there is left alone. */
    method RemoveActivityClient(q: Mailbox)
      requires Valid()
      modifies this
      ensures Valid()
      ensures activityClients == Drop(old(activityClients), {q})
      ensures metricsClients == old(metricsClients)
    {
      if q in activityClients {
        RemoveFirstIsDrop(activityClients, q);
        activityClients := RemoveFirst(activityClients, q);
      } else {
        DropAbsent(activityClients, {q});
      }
      DropNoDup(old(activityClients), {q});
    }

    /** Registers a fresh, empty mailbox at the end of the metrics list. */
    method AddMetricsClient() returns (q: Mailbox)
      requires Valid()
      modifies this
      ensures Valid() && fresh(q) && q.pending == []
      ensures metricsClients == old(metricsClients) + [q]
      ensures activityClients == old(activityClients)
    {
      q := new Mailbox();
      metricsClients := metricsClients + [q];
    }

    /** Unregisters `q` from the metrics list; a mailbox that is not there is left alone. */
    method RemoveMetricsClient(q: Mailbox)
      requires Valid()
      modifies this
      ensures Valid()
      ensures metricsClients == Drop(old(metricsClients), {q})
      ensures activityClients == old(activityClients)
    {
      if q in metricsClients {
        RemoveFirstIsDrop(metricsClients, q);
        metricsClients := RemoveFirst(metricsClients, q);
      } else {
        DropAbsent(metricsClients, {q});
      }
      DropNoDup(old(metricsClients), {q});
    }

    /**
     * Publishes one activity line. Every activity mailbox outside `failing`
     * gets the framed fragment at its tail; the failing ones are evicted
     * after the pass; the metrics topic is not touched.
     */
    method BroadcastActivity(message: string, timestamp: string, failing: set<Mailbox>)
      requires Valid()
      modifies this, set m | m in activityClients
      ensures Valid()
      ensures activityClients == Drop(old(activityClients), failing)
      ensures metricsClients == old(metricsClients)
      ensures forall m :: m in old(activityClients) ==>
        m.pending == AfterPut(old(m.pending), m in failing, Frame(ActivityHtml(message, timestamp)))
      ensures forall m :: m in metricsClients ==> m.pending == old(m.pending)
    {
      if activityClients == [] {
        return;
      }
      var eventData := Frame(ActivityHtml(message, timestamp));
      var disconnected := FanOut(activityClients, eventData, failing);
      DropAbsent(activityClients, Elems(disconnected[..0]));
      for k := 0 to |disconnected|
        modifies this
        invariant Valid()
        invariant metricsClients == old(metricsClients)
        invariant activityClients == Drop(old(activityClients), Elems(disconnected[..k]))
      {
        ghost var before := Elems(disconnected[..k]);
        RemoveActivityClient(disconnected[k]);
        DropDrop(old(activityClients), before, {disconnected[k]});
        assert disconnected[..k + 1] == disconnected[..k] + [disconnected[k]];
        ElemsSnoc(disconnected[..k], disconnected[k]);
      }
      assert disconnected[..|disconnected|] == disconnected;
      DropAgree(old(activityClients), Elems(disconnected), failing);
    }

    /**
     * Publishes one rendered metrics fragment, symmetric to
     * BroadcastActivity with the topics swapped.
     */
    method BroadcastMetrics(metricsHtml: string, failing: set<Mailbox>)
      requires Valid()
      modifies this, set m | m in metricsClients
      ensures Valid()
      ensures metricsClients == Drop(old(metricsClients), failing)
      ensures activityClients == old(activityClients)
      ensures forall m :: m in old(metricsClients) ==>
        m.pending == AfterPut(old(m.pending), m in failing, Frame(metricsHtml))
      ensures forall m :: m in activityClients ==> m.pending == old(m.pending)
    {
      if metricsClients == [] {
        return;
      }
      var eventData := Frame(metricsHtml);
      var disconnected := FanOut(metricsClients, eventData, failing);
      DropAbsent(metricsClients, Elems(disconnected[..0]));
      for k := 0 to |disconnected|
        modifies this
        invariant Valid()
        invariant activityClients == old(activityClients)
        invariant metricsClients == Drop(old(metricsClients), Elems(disconnected[..k]))
      {
        ghost var before := Elems(disconnected[..k]);
        RemoveMetricsClient(disconnected[k]);
        DropDrop(old(metricsClients), before, {disconnected[k]});
        assert disconnected[..k + 1] == disconnected[..k] + [disconnected[k]];
        ElemsSnoc(disconnected[..k], disconnected[k]);
      }
      assert disconnected[..|disconnected|] == disconnected;
      DropAgree(old(metricsClients), Elems(disconnected), failing);
    }

    /** Turns a task event into its activity line and publishes it on the activity topic. */
    method BroadcastTaskEvent(eventType: string, taskData: map<string, Value>, timestamp: string, failing: set<Mailbox>)
      requires Valid()
      modifies this, set m | m in activityClients
      ensures Valid()
      ensures activityClients == Drop(old(activityClients), failing)
      ensures metricsClients == old(metricsClients)
      ensures forall m :: m in old(activityClients) ==>
        m.pending == AfterPut(old(m.pending), m in failing, Frame(ActivityHtml(ActivityMessage(eventType, taskData), timestamp)))
      ensures forall m :: m in metricsClients ==> m.pending == old(m.pending)
    {
      var activityMessage := ActivityMessage(eventType, taskData);
      BroadcastActivity(activityMessage, timestamp, failing);
    }
  }
}
