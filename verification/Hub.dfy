/** The hub of the daemon (`backend/src/ipc/hub.rs`): snapshots, the broadcast
    ring, the bounded module queue, and the reference-counted lazy loops.

    `HubState` and the functions over it say what one atomic step does; the
    class `Hub` does it in place, as the source does. */
module HubModel {
  import opened Basics

  datatype Topic = Topic(name: string)

  /** A module state as it travels on the wire. */
  datatype Value = Json(text: string)

  datatype Event = Event(topic: Topic, data: Value)

  const BROADCAST_CAPACITY: nat := 256
  const SINK_CAPACITY: nat := 1024

  /** `task` is the handle of the streaming loop that was spawned for the topic. */
  datatype Runtime = Runtime(subscribers: nat, task: Option<nat>)

  /** `log` holds every event ever broadcast; the ring keeps only its last
      BROADCAST_CAPACITY, which is what `Receive` enforces. `tasks[h]` is the topic
      of the loop with handle `h`. `accepted` is the history of module pushes that
      fitted in the queue. */
  datatype HubState = HubState(
    modules: set<Topic>,
    snapshots: map<Topic, Value>,
    log: seq<Event>,
    sink: seq<Event>,
    taken: Option<Event>,
    runtimes: map<Topic, Runtime>,
    tasks: seq<Topic>,
    aborted: set<nat>,
    accepted: seq<Event>)

  /** The last data seen for each topic: what remains of a stream of events. */
  function Cache(events: seq<Event>): map<Topic, Value> {
    if events == [] then map[]
    else
      var last := events[|events| - 1];
      Cache(events[..|events| - 1])[last.topic := last.data]
  }

  // -- the broadcast ring ------------------------------------------------------

  datatype Received = Nothing | Got(event: Event) | Lag(skipped: nat)

  /** One `recv` of a receiver at `cursor`. A receiver that fell out of the ring is
      told how much it lost and is moved to the oldest event still there. */
  function Receive(log: seq<Event>, cursor: nat): (r: (Received, nat))
    requires cursor <= |log|
    ensures cursor <= r.1 <= |log|
    ensures r.0.Nothing? <==> cursor == |log|
    ensures r.0.Got? ==> r.0.event == log[cursor] && r.1 == cursor + 1
    ensures r.0.Lag? ==> r.0.skipped == r.1 - cursor > 0 && |log| - r.1 == BROADCAST_CAPACITY
  {
    if cursor == |log| then (Nothing, cursor)
    else if |log| - cursor > BROADCAST_CAPACITY then
      var oldest := |log| - BROADCAST_CAPACITY;
      (Lag(oldest - cursor), oldest)
    else (Got(log[cursor]), cursor + 1)
  }

  /** What a receiver gets that calls `recv` until nothing is left. */
  function Drain(log: seq<Event>, cursor: nat): seq<Event>
    requires cursor <= |log|
    decreases |log| - cursor
  {
    var (received, next) := Receive(log, cursor);
    match received
    case Nothing => []
    case Got(e) => [e] + Drain(log, next)
    case Lag(_) => Drain(log, next)
  }

  /** Of what it has not read a receiver loses the oldest events only, and those only as
      far as they do not fit the ring. */
  lemma {:induction false} DrainIsTail(log: seq<Event>, cursor: nat)
    requires cursor <= |log|
    ensures var oldest := |log| - BROADCAST_CAPACITY;
            Drain(log, cursor) == log[if cursor < oldest then oldest else cursor..]
    decreases |log| - cursor
  {
    if cursor < |log| {
      DrainIsTail(log, Receive(log, cursor).1);
    }
  }

  // -- publishing --------------------------------------------------------------

  /** A module push: dropped when the queue is full. */
  function PushState(h: HubState, e: Event): HubState {
    if |h.sink| < SINK_CAPACITY
    then h.(sink := h.sink + [e], accepted := h.accepted + [e])
    else h
  }

  /** The publisher takes the next push and then waits for the snapshot lock. */
  function TakeState(h: HubState): HubState
    requires h.taken.None? && h.sink != []
  {
    h.(taken := Some(h.sink[0]), sink := h.sink[1..])
  }

  /** Snapshot and broadcast: no await between them, so one step. */
  function PublishState(h: HubState): HubState
    requires h.taken.Some?
  {
    var e := h.taken.value;
    h.(snapshots := h.snapshots[e.topic := e.data], log := h.log + [e], taken := None)
  }

  // -- lazy loops --------------------------------------------------------------

  function RuntimeOf(h: HubState, topic: Topic): Runtime {
    if topic in h.runtimes then h.runtimes[topic] else Runtime(0, None)
  }

  function AcquireState(h: HubState, topic: Topic): HubState
    requires topic in h.modules
  {
    var entry := RuntimeOf(h, topic);
    if entry.subscribers == 0 && entry.task.None? then
      h.(runtimes := h.runtimes[topic := Runtime(1, Some(|h.tasks|))], tasks := h.tasks + [topic])
    else
      h.(runtimes := h.runtimes[topic := entry.(subscribers := entry.subscribers + 1)])
  }

  function SaturatingDecrement(n: nat): nat {
    if n == 0 then 0 else n - 1
  }

  function ReleaseState(h: HubState, topic: Topic): HubState {
    if topic !in h.modules || topic !in h.runtimes then h
    else
      var entry := h.runtimes[topic];
      var left := SaturatingDecrement(entry.subscribers);
      if left == 0 && entry.task.Some? then
        h.(runtimes := h.runtimes[topic := Runtime(0, None)], aborted := h.aborted + {entry.task.value})
      else
        h.(runtimes := h.runtimes[topic := entry.(subscribers := left)])
  }

  function EmptyHub(modules: set<Topic>): HubState {
    HubState(modules, map[], [], [], None, map[], [], {}, [])
  }

  /** The daemon's own subscriptions, taken before it starts listening. */
  function BootHub(modules: set<Topic>, alwaysOn: seq<Topic>): (h: HubState)
    requires forall t | t in alwaysOn :: t in modules
    ensures h.modules == modules
  {
    if alwaysOn == [] then EmptyHub(modules)
    else
      var n := |alwaysOn| - 1;
      AcquireState(BootHub(modules, alwaysOn[..n]), alwaysOn[n])
  }

  class Hub {
    const modules: set<Topic>
    var snapshots: map<Topic, Value>
    var log: seq<Event>
    var sink: seq<Event>
    var taken: Option<Event>
    var runtimes: map<Topic, Runtime>
    var tasks: seq<Topic>
    var aborted: set<nat>
    ghost var accepted: seq<Event>

    ghost function View(): HubState
      reads this
    {
      HubState(modules, snapshots, log, sink, taken, runtimes, tasks, aborted, accepted)
    }

    constructor (modules: set<Topic>)
      ensures View() == EmptyHub(modules)
    {
      this.modules := modules;
      snapshots, log, sink, taken := map[], [], [], None;
      runtimes, tasks, aborted, accepted := map[], [], {}, [];
    }

    method Push(e: Event) returns (queued: bool)
      modifies this
      ensures View() == PushState(old(View()), e)
      ensures queued == (|old(sink)| < SINK_CAPACITY)
      ensures queued ==> sink == old(sink) + [e] && accepted == old(accepted) + [e]
      ensures !queued ==> View() == old(View())
    {
      queued := |sink| < SINK_CAPACITY;
      if queued {
        sink := sink + [e];
        accepted := accepted + [e];
      }
    }

    method Take()
      requires taken.None? && sink != []
      modifies this
      ensures View() == TakeState(old(View()))
    {
      taken := Some(sink[0]);
      sink := sink[1..];
    }

    method Publish()
      requires taken.Some?
      modifies this
      ensures View() == PublishState(old(View()))
    {
      var e := taken.value;
      snapshots := snapshots[e.topic := e.data];
      log := log + [e];
      taken := None;
    }

    method Snapshot(topic: Topic) returns (data: Option<Value>)
      ensures data.Some? <==> topic in snapshots
      ensures data.Some? ==> data.value == snapshots[topic]
    {
      if topic in snapshots {
        data := Some(snapshots[topic]);
      } else {
        data := None;
      }
    }

    method Acquire(topic: Topic) returns (ok: bool)
      modifies this
      ensures ok == (topic in modules)
      ensures View() == if ok then AcquireState(old(View()), topic) else old(View())
    {
      ok := topic in modules;
      if !ok {
        return;
      }
      if topic !in runtimes {
        runtimes := runtimes[topic := Runtime(0, None)];
      }
      var entry := runtimes[topic];
      entry := entry.(subscribers := entry.subscribers + 1);
      if entry.subscribers == 1 && entry.task.None? {
        entry := entry.(task := Some(|tasks|));
        tasks := tasks + [topic];
      }
      runtimes := runtimes[topic := entry];
    }

    method Release(topic: Topic)
      modifies this
      ensures View() == ReleaseState(old(View()), topic)
    {
      if topic !in modules || topic !in runtimes {
        return;
      }
      var entry := runtimes[topic];
      entry := entry.(subscribers := SaturatingDecrement(entry.subscribers));
      if entry.subscribers == 0 && entry.task.Some? {
        aborted := aborted + {entry.task.value};
        entry := entry.(task := None);
      }
      runtimes := runtimes[topic := entry];
    }

    /** The daemon's start: one acquire for each always-on module. */
    method Boot(alwaysOn: seq<Topic>)
      requires View() == EmptyHub(modules)
      requires forall t | t in alwaysOn :: t in modules
      modifies this
      ensures View() == BootHub(modules, alwaysOn)
    {
      var i := 0;
      while i < |alwaysOn|
        invariant 0 <= i <= |alwaysOn|
        invariant View() == BootHub(modules, alwaysOn[..i])
      {
        assert alwaysOn[..i + 1][..i] == alwaysOn[..i];
        var ok := Acquire(alwaysOn[i]);
        i := i + 1;
      }
      assert alwaysOn[..i] == alwaysOn;
    }
  }
}
