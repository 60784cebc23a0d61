/** The whole daemon as a step system: any number of connections, module pushes and
    the publisher, interleaved at every await. A `Step` is one task's work between
    two awaits; the runtime is single threaded (`backend/src/main.rs:92`). */
module Daemon {
  import opened Basics
  import opened HubModel
  import opened ServerModel

  const MAX_CONNECTIONS: nat := 64

  datatype System = System(hub: HubState, clients: map<nat, Client>)

  datatype Step =
    | Push(event: Event)                       // a module pushes a state
    | Take                                     // the publisher dequeues one
    | Publish                                  // ... and publishes it
    | Connect(id: nat)
    | Request(id: nat, request: ServerModel.Request)
    | Handle(id: nat)                          // the request handler goes on
    | Forward(id: nat, pick: Topic)            // the forwarder goes on
    | CallReply(id: nat, ok: bool)             // a call task answers
    | Write(id: nat, ok: bool)                 // the writer task takes a line
    | HangUp(id: nat)                          // end of input, read error, or closed
    | CleanUp(id: nat, topic: Topic)           // release one topic
    | CleanedUp(id: nat)                       // lock dropped, forwarder aborted
    | Finish(id: nat)                          // drained: the slot is free

  predicate Enabled(s: System, step: Step) {
    match step
    case Push(_) => true
    case Take => s.hub.taken.None? && s.hub.sink != []
    case Publish => s.hub.taken.Some?
    case Connect(id) => id !in s.clients && |s.clients| < MAX_CONNECTIONS
    case Request(id, _) => id in s.clients && s.clients[id].handler.Reading? && !s.clients[id].out.closed
    case Handle(id) => id in s.clients && Handling(s.clients[id])
    case Forward(id, pick) =>
      id in s.clients && s.clients[id].cursor <= |s.hub.log| && CanForward(s.clients[id], pick)
    case CallReply(id, _) => id in s.clients
    case Write(id, _) => id in s.clients && s.clients[id].out.queue != [] && !s.clients[id].out.hungUp
    case HangUp(id) => id in s.clients && s.clients[id].handler.Reading?
    case CleanUp(id, topic) =>
      id in s.clients && s.clients[id].handler.Cleaning? && topic in s.clients[id].handler.left
    case CleanedUp(id) => id in s.clients && s.clients[id].handler == Cleaning({})
    case Finish(id) => id in s.clients && s.clients[id].handler.Draining?
  }

  function Apply(s: System, step: Step): System
    requires Enabled(s, step)
  {
    match step
    case Push(e) => s.(hub := PushState(s.hub, e))
    case Take => s.(hub := TakeState(s.hub))
    case Publish => s.(hub := PublishState(s.hub))
    case Connect(id) => s.(clients := s.clients[id := NewClient(s.hub)])
    case Request(id, request) => s.(clients := s.clients[id := StartRequest(s.clients[id], request)])
    case Handle(id) =>
      var (hub, client) := HandleStep(s.hub, s.clients[id]);
      System(hub, s.clients[id := client])
    case Forward(id, pick) => s.(clients := s.clients[id := ForwardStep(s.hub, s.clients[id], pick)])
    case CallReply(id, ok) =>
      var c := s.clients[id];
      s.(clients := s.clients[id := c.(out := SendLine(c.out, ReplyLine(ok)).0)])
    case Write(id, ok) =>
      var c := s.clients[id];
      s.(clients := s.clients[id := c.(out := WriteLine(c.out, ok))])
    case HangUp(id) =>
      var c := s.clients[id];
      s.(clients := s.clients[id := c.(handler := Cleaning(c.subs))])
    case CleanUp(id, topic) =>
      var c := s.clients[id];
      System(ReleaseState(s.hub, topic), s.clients[id := c.(handler := Cleaning(c.handler.left - {topic}))])
    case CleanedUp(id) =>
      var c := s.clients[id];
      s.(clients := s.clients[id := c.(handler := Draining, forwarder := Stopped)])
    case Finish(id) => s.(clients := s.clients - {id})
  }

  /** `alwaysOn` lists the always-on modules, each once, as `describe` sorts them. */
  predicate BootOrder(modules: set<Topic>, alwaysOn: seq<Topic>) {
    && (forall t | t in alwaysOn :: t in modules)
    && (forall i, j | 0 <= i < j < |alwaysOn| :: alwaysOn[i] != alwaysOn[j])
  }

  function Boot(modules: set<Topic>, alwaysOn: seq<Topic>): System
    requires BootOrder(modules, alwaysOn)
  {
    System(BootHub(modules, alwaysOn), map[])
  }

  /** `steps` leads from `s` to `end`. */
  predicate Run(s: System, steps: seq<Step>, end: System)
    decreases |steps|
  {
    if steps == [] then s == end
    else Enabled(s, steps[0]) && Run(Apply(s, steps[0]), steps[1..], end)
  }

  /** The states the daemon can get into. */
  ghost predicate Reachable(modules: set<Topic>, alwaysOn: seq<Topic>, s: System)
    requires BootOrder(modules, alwaysOn)
  {
    exists steps :: Run(Boot(modules, alwaysOn), steps, s)
  }

  /** The connection a step belongs to; steps of the modules have none. */
  function Owner(step: Step): Option<nat> {
    match step
    case Push(_) => None
    case Take => None
    case Publish => None
    case _ => Some(step.id)
  }
}
