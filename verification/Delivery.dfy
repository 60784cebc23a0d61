/** Delivery coherence: whatever the ring dropped and however the tasks interleave,
    a client with nothing in flight was last sent exactly the hub's snapshot of each
    topic it is subscribed to. */
module Delivery {
  import opened Basics
  import opened HubModel
  import opened ServerModel
  import opened Daemon

  // -- what is still on its way to a client ------------------------------------

  predicate Unread(log: seq<Event>, cursor: nat, topic: Topic) {
    exists i | cursor <= i < |log| :: log[i].topic == topic
  }

  /** The connection task has inserted the topic and is about to send its snapshot. */
  predicate AboutToShow(c: Client, topic: Topic) {
    c.handler.Subscribing? && c.handler.stage.Showing? && c.handler.todo != [] && c.handler.todo[0] == topic
  }

  predicate InFlight(h: HubState, c: Client, topic: Topic) {
    || Unread(h.log, c.cursor, topic)
    || (c.forwarder.Holding? && c.forwarder.event.topic == topic)
    || c.forwarder.Lagged?
    || (c.forwarder.Resending? && topic in c.forwarder.topics)
    || AboutToShow(c, topic)
  }

  /** Not marked for disconnection, and its connection task still serves requests. */
  predicate Open(c: Client) {
    !c.out.closed && !c.handler.Cleaning? && !c.handler.Draining?
  }

  predicate LastSent(h: HubState, c: Client, topic: Topic)
    requires topic in h.snapshots
  {
    topic in Seen(c.out) && Seen(c.out)[topic] == h.snapshots[topic]
  }

  ghost predicate Coherent(h: HubState, c: Client) {
    Open(c) ==>
      forall t | t in c.subs && t in h.snapshots :: InFlight(h, c, t) || LastSent(h, c, t)
  }

  // -- invariant ---------------------------------------------------------------

  predicate ClientSane(h: HubState, c: Client) {
    && c.cursor <= |h.log|
    && (c.forwarder.Holding? ==> c.cursor > 0 && h.log[c.cursor - 1] == c.forwarder.event)
    && (c.forwarder.Stopped? ==> !Open(c))
    && (c.out.hungUp ==> c.out.closed)
    && |c.out.queue| <= CLIENT_QUEUE
  }

  /** Every push accepted from a module is published, in order, and the snapshots
      are what remains of the published events. */
  predicate HubSane(h: HubState) {
    && h.snapshots == Cache(h.log)
    && h.accepted == h.log + (if h.taken.Some? then [h.taken.value] else []) + h.sink
    && |h.sink| <= SINK_CAPACITY
  }

  ghost predicate Inv(s: System) {
    && HubSane(s.hub)
    && |s.clients| <= MAX_CONNECTIONS
    && forall id | id in s.clients :: ClientSane(s.hub, s.clients[id]) && Coherent(s.hub, s.clients[id])
  }

  // -- folding events ----------------------------------------------------------

  /** With no unread event of a topic, the last one read is the hub's snapshot. */
  lemma {:induction false} LastReadIsCurrent(log: seq<Event>, cursor: nat)
    requires 0 < cursor <= |log|
    requires !Unread(log, cursor, log[cursor - 1].topic)
    ensures var e := log[cursor - 1]; e.topic in Cache(log) && Cache(log)[e.topic] == e.data
  {
    var e := log[cursor - 1];
    if cursor < |log| {
      var rest := log[..|log| - 1];
      assert log[|log| - 1].topic != e.topic;
      assert forall i | cursor <= i < |rest| :: rest[i] == log[i];
      LastReadIsCurrent(rest, cursor);
    }
  }

  // -- one client's own steps --------------------------------------------------

  lemma RequestKeeps(h: HubState, c: Client, request: ServerModel.Request)
    requires ClientSane(h, c) && Coherent(h, c) && c.handler.Reading?
    ensures var d := StartRequest(c, request); ClientSane(h, d) && Coherent(h, d)
  {
    if request.Other? {
      SeenSent(c.out, ReplyLine(request.ok));
    }
  }

  lemma ReplyKeeps(h: HubState, c: Client, ok: bool)
    requires ClientSane(h, c) && Coherent(h, c)
    ensures var d := c.(out := SendLine(c.out, ReplyLine(ok)).0); ClientSane(h, d) && Coherent(h, d)
  {
    SeenSent(c.out, ReplyLine(ok));
  }

  lemma WriteKeeps(h: HubState, c: Client, ok: bool)
    requires ClientSane(h, c) && Coherent(h, c) && c.out.queue != [] && !c.out.hungUp
    ensures var d := c.(out := WriteLine(c.out, ok)); ClientSane(h, d) && Coherent(h, d)
  {
  }

  /** Reference counting does not touch what delivery depends on. */
  predicate SameEvents(h: HubState, k: HubState) {
    h.snapshots == k.snapshots && h.log == k.log && h.sink == k.sink && h.taken == k.taken
    && h.accepted == k.accepted
  }

  lemma {:induction false} SubscribeKeeps(h: HubState, c: Client)
    requires ClientSane(h, c) && Coherent(h, c) && c.handler.Subscribing?
    ensures var (k, d) := SubscribeStep(h, c); SameEvents(h, k) && ClientSane(k, d) && Coherent(k, d)
  {
    if c.handler.todo == [] || c.handler.stage.Showing? {
      SendingKeeps(h, c);
    } else {
      PreparingKeeps(h, c);
    }
  }

  /** The stages of a subscription that send nothing. */
  lemma PreparingKeeps(h: HubState, c: Client)
    requires ClientSane(h, c) && Coherent(h, c)
    requires c.handler.Subscribing? && c.handler.todo != [] && !c.handler.stage.Showing?
    ensures var (k, d) := SubscribeStep(h, c); SameEvents(h, k) && ClientSane(k, d) && Coherent(k, d)
  {
    hide Unread, Cache, EventsOf, SendLine;
    var (k, d) := SubscribeStep(h, c);
    if Open(d) {
      forall t | t in d.subs && t in k.snapshots ensures InFlight(k, d, t) || LastSent(k, d, t) {
        if t in c.subs {
          assert InFlight(h, c, t) || LastSent(h, c, t);
        }
      }
    }
  }

  /** Sending the snapshot, and the reply at the end. */
  lemma SendingKeeps(h: HubState, c: Client)
    requires ClientSane(h, c) && Coherent(h, c)
    requires c.handler.Subscribing? && (c.handler.todo == [] || c.handler.stage.Showing?)
    ensures var (k, d) := SubscribeStep(h, c); SameEvents(h, k) && ClientSane(k, d) && Coherent(k, d)
  {
    hide Unread, Cache, EventsOf, Seen;
    var (k, d) := SubscribeStep(h, c);
    var Subscribing(todo, stage, failed) := c.handler;
    if todo == [] {
      SeenSent(c.out, ReplyLine(!failed));
    } else if todo[0] in h.snapshots {
      SeenSent(c.out, EventLine(Event(todo[0], h.snapshots[todo[0]])));
    }
    if Open(d) {
      forall t | t in d.subs && t in k.snapshots ensures InFlight(k, d, t) || LastSent(k, d, t) {
        assert InFlight(h, c, t) || LastSent(h, c, t);
      }
    }
  }

  lemma UnsubscribeKeeps(h: HubState, c: Client)
    requires ClientSane(h, c) && Coherent(h, c) && c.handler.Unsubscribing?
    ensures var (k, d) := UnsubscribeStep(h, c); SameEvents(h, k) && ClientSane(k, d) && Coherent(k, d)
  {
    SeenSent(c.out, ReplyLine(true));
    var (k, d) := UnsubscribeStep(h, c);
    if Open(d) {
      forall t | t in d.subs && t in k.snapshots ensures InFlight(k, d, t) || LastSent(k, d, t) {
        assert InFlight(h, c, t) || LastSent(h, c, t);
      }
    }
  }

  lemma ReadKeeps(h: HubState, c: Client, pick: Topic)
    requires HubSane(h) && ClientSane(h, c) && Coherent(h, c) && c.forwarder.Idle?
    ensures var d := ForwardStep(h, c, pick); ClientSane(h, d) && Coherent(h, d)
  {
    var d := ForwardStep(h, c, pick);
    if Open(d) {
      forall t | t in d.subs && t in h.snapshots ensures InFlight(h, d, t) || LastSent(h, d, t) {
        if Unread(h.log, c.cursor, t) && !d.forwarder.Lagged? {
          var i :| c.cursor <= i < |h.log| && h.log[i].topic == t;
          assert i == c.cursor || Unread(h.log, d.cursor, t);
        }
      }
    }
  }

  lemma {:induction false} DeliverKeeps(h: HubState, c: Client, pick: Topic)
    requires HubSane(h) && ClientSane(h, c) && Coherent(h, c)
    requires c.forwarder.Holding? && CanForward(c, pick)
    ensures var d := ForwardStep(h, c, pick); ClientSane(h, d) && Coherent(h, d)
  {
    var d := ForwardStep(h, c, pick);
    var e := c.forwarder.event;
    SeenSent(c.out, EventLine(e));
    if !Unread(h.log, c.cursor, e.topic) {
      LastReadIsCurrent(h.log, c.cursor);
    }
    if Open(d) {
      forall t | t in d.subs && t in h.snapshots ensures InFlight(h, d, t) || LastSent(h, d, t) {
        assert InFlight(h, c, t) || LastSent(h, c, t);
      }
    }
  }

  lemma ResendKeeps(h: HubState, c: Client, pick: Topic)
    requires HubSane(h) && ClientSane(h, c) && Coherent(h, c)
    requires (c.forwarder.Lagged? || c.forwarder.Resending?) && CanForward(c, pick)
    ensures var d := ForwardStep(h, c, pick); ClientSane(h, d) && Coherent(h, d)
  {
    var d := ForwardStep(h, c, pick);
    if pick in h.snapshots {
      SeenSent(c.out, EventLine(Event(pick, h.snapshots[pick])));
    }
    if Open(d) {
      forall t | t in d.subs && t in h.snapshots ensures InFlight(h, d, t) || LastSent(h, d, t) {
        assert InFlight(h, c, t) || LastSent(h, c, t);
      }
    }
  }

  // -- the hub's steps ---------------------------------------------------------

  lemma PublishKeeps(h: HubState, c: Client)
    requires HubSane(h) && ClientSane(h, c) && Coherent(h, c) && h.taken.Some?
    ensures ClientSane(PublishState(h), c) && Coherent(PublishState(h), c)
  {
    var k := PublishState(h);
    var e := h.taken.value;
    assert k.log[|h.log|] == e;
    if Open(c) {
      forall t | t in c.subs && t in k.snapshots ensures InFlight(k, c, t) || LastSent(k, c, t) {
        if t == e.topic {
          assert Unread(k.log, c.cursor, t);
        } else if Unread(h.log, c.cursor, t) {
          var i :| c.cursor <= i < |h.log| && h.log[i].topic == t;
          assert k.log[i].topic == t;
        }
      }
    }
  }

  lemma HubStepKeeps(h: HubState)
    requires HubSane(h)
    ensures forall e :: HubSane(PushState(h, e))
    ensures h.taken.None? && h.sink != [] ==> HubSane(TakeState(h))
    ensures h.taken.Some? ==> HubSane(PublishState(h))
  {
    if h.taken.None? && h.sink != [] {
      assert [h.sink[0]] + h.sink[1..] == h.sink;
    }
    if h.taken.Some? {
      CacheAppend(h.log, h.taken.value);
    }
  }

  // -- the whole system --------------------------------------------------------

  lemma HubStepInv(s: System, step: Step)
    requires Inv(s) && Enabled(s, step) && Owner(step).None?
    ensures Inv(Apply(s, step))
  {
    HubStepKeeps(s.hub);
    if step.Publish? {
      forall id | id in s.clients 
        ensures Coherent(Apply(s, step).hub, s.clients[id]) && ClientSane(Apply(s, step).hub, s.clients[id]) {
        PublishKeeps(s.hub, s.clients[id]);
      }
    }
  }

  /** What a step of connection `id` leaves alone. */
  lemma ClientStepFrame(s: System, step: Step)
    requires Enabled(s, step) && Owner(step).Some?
    ensures var n := Apply(s, step);
            && SameEvents(s.hub, n.hub)
            && s.clients.Keys - {step.id} <= n.clients.Keys <= s.clients.Keys + {step.id}
            && (forall id | id in n.clients && id != step.id :: n.clients[id] == s.clients[id])
  {
  }

  lemma {:induction false} ClientStepKeeps(s: System, step: Step)
    requires Inv(s) && Enabled(s, step) && Owner(step).Some? && !step.Finish?
    ensures var n := Apply(s, step);
            step.id in n.clients && ClientSane(n.hub, n.clients[step.id]) && Coherent(n.hub, n.clients[step.id])
  {
    match step
    case Connect(id) =>
    case Request(id, request) => RequestKeeps(s.hub, s.clients[id], request);
    case Handle(id) =>
      if s.clients[id].handler.Subscribing? {
        SubscribeKeeps(s.hub, s.clients[id]);
      } else {
        UnsubscribeKeeps(s.hub, s.clients[id]);
      }
    case Forward(id, pick) =>
      if s.clients[id].forwarder.Idle? {
        ReadKeeps(s.hub, s.clients[id], pick);
      } else if s.clients[id].forwarder.Holding? {
        DeliverKeeps(s.hub, s.clients[id], pick);
      } else {
        ResendKeeps(s.hub, s.clients[id], pick);
      }
    case CallReply(id, ok) => ReplyKeeps(s.hub, s.clients[id], ok);
    case Write(id, ok) => WriteKeeps(s.hub, s.clients[id], ok);
    case HangUp(id) =>
    case CleanUp(id, topic) =>
    case CleanedUp(id) =>
  }

  /** Dropping reference counts does not disturb a client. */
  lemma SameEventsKeeps(h: HubState, k: HubState, c: Client)
    requires SameEvents(h, k) && ClientSane(h, c) && Coherent(h, c)
    ensures ClientSane(k, c) && Coherent(k, c)
  {
    if Open(c) {
      forall t | t in c.subs && t in k.snapshots ensures InFlight(k, c, t) || LastSent(k, c, t) {
        assert InFlight(h, c, t) || LastSent(h, c, t);
      }
    }
  }

  lemma {:induction false} StepInv(s: System, step: Step)
    requires Inv(s) && Enabled(s, step)
    ensures Inv(Apply(s, step))
  {
    if Owner(step).None? {
      HubStepInv(s, step);
      return;
    }
    var n := Apply(s, step);
    ClientStepFrame(s, step);
    if !step.Finish? {
      ClientStepKeeps(s, step);
    }
    assert |n.clients| <= MAX_CONNECTIONS by {
      ClientCount(s, step);
    }
    forall id | id in n.clients ensures ClientSane(n.hub, n.clients[id]) && Coherent(n.hub, n.clients[id]) {
      if id != step.id {
        SameEventsKeeps(s.hub, n.hub, s.clients[id]);
      }
    }
  }

  lemma ClientCount(s: System, step: Step)
    requires Enabled(s, step) && Owner(step).Some? && |s.clients| <= MAX_CONNECTIONS
    ensures |Apply(s, step).clients| <= MAX_CONNECTIONS
  {
    var n := Apply(s, step);
    if step.Finish? {
      assert n.clients.Keys == s.clients.Keys - {step.id};
      assert |n.clients.Keys| <= |s.clients.Keys|;
    } else {
      assert n.clients.Keys == s.clients.Keys + {step.id};
    }
  }

  lemma {:induction false} RunInv(s: System, steps: seq<Step>, end: System)
    requires Inv(s) && Run(s, steps, end)
    ensures Inv(end)
    decreases |steps|
  {
    if steps != [] {
      StepInv(s, steps[0]);
      RunInv(Apply(s, steps[0]), steps[1..], end);
    }
  }

  lemma {:induction false} BootSane(modules: set<Topic>, alwaysOn: seq<Topic>)
    requires forall t | t in alwaysOn :: t in modules
    ensures var h := BootHub(modules, alwaysOn);
            h.snapshots == map[] && h.log == [] && h.sink == [] && h.taken.None? && h.accepted == []
  {
    if alwaysOn != [] {
      BootSane(modules, alwaysOn[..|alwaysOn| - 1]);
    }
  }

  lemma ReachableInv(modules: set<Topic>, alwaysOn: seq<Topic>, s: System)
    requires BootOrder(modules, alwaysOn) && Reachable(modules, alwaysOn, s)
    ensures Inv(s)
  {
    BootSane(modules, alwaysOn);
    var steps :| Run(Boot(modules, alwaysOn), steps, s);
    RunInv(Boot(modules, alwaysOn), steps, s);
  }

  // -- main results ------------------------------------------------------------

  /** No accepted push is lost, doubled or overtaken on its way through the publisher, and
      the snapshots are the last published state of each topic. */
  lemma {:induction false} PublishedInOrder(modules: set<Topic>, alwaysOn: seq<Topic>, s: System)
    requires BootOrder(modules, alwaysOn) && Reachable(modules, alwaysOn, s)
    ensures s.hub.accepted == s.hub.log + (if s.hub.taken.Some? then [s.hub.taken.value] else []) + s.hub.sink
    ensures s.hub.snapshots == Cache(s.hub.log)
  {
    ReachableInv(modules, alwaysOn, s);
  }

  lemma DeliveryCoherence(modules: set<Topic>, alwaysOn: seq<Topic>, s: System, id: nat, topic: Topic)
    requires BootOrder(modules, alwaysOn) && Reachable(modules, alwaysOn, s)
    requires id in s.clients && Open(s.clients[id]) && Quiet(s.hub, s.clients[id])
    requires topic in s.clients[id].subs && topic in s.hub.snapshots
    requires !AboutToShow(s.clients[id], topic)
    ensures topic in Seen(s.clients[id].out)
    ensures Seen(s.clients[id].out)[topic] == s.hub.snapshots[topic]
  {
    ReachableInv(modules, alwaysOn, s);
    assert Coherent(s.hub, s.clients[id]);
  }

  /** End to end: with nothing left in the module queue or the publisher either, the
      client holds the last state its module got through for the topic. */
  lemma EndToEnd(modules: set<Topic>, alwaysOn: seq<Topic>, s: System, id: nat, topic: Topic)
    requires BootOrder(modules, alwaysOn) && Reachable(modules, alwaysOn, s)
    requires id in s.clients && Open(s.clients[id]) && Quiet(s.hub, s.clients[id])
    requires topic in s.clients[id].subs && !AboutToShow(s.clients[id], topic)
    requires s.hub.sink == [] && s.hub.taken.None?
    requires topic in Cache(s.hub.accepted)
    ensures topic in Seen(s.clients[id].out)
    ensures Seen(s.clients[id].out)[topic] == Cache(s.hub.accepted)[topic]
  {
    ReachableInv(modules, alwaysOn, s);
    assert s.hub.accepted == s.hub.log;
    DeliveryCoherence(modules, alwaysOn, s, id, topic);
  }

  lemma {:induction false} RunConcat(s: System, first: seq<Step>, mid: System, second: seq<Step>, end: System)
    requires Run(s, first, mid) && Run(mid, second, end)
    ensures Run(s, first + second, end)
    decreases |first|
  {
    hide Apply, Enabled;
    if first == [] {
      assert first + second == second;
    } else {
      RunConcat(Apply(s, first[0]), first[1..], mid, second, end);
      assert (first + second)[1..] == first[1..] + second;
    }
  }

  lemma OneMore(modules: set<Topic>, alwaysOn: seq<Topic>, s: System, step: Step)
    requires BootOrder(modules, alwaysOn) && Reachable(modules, alwaysOn, s) && Enabled(s, step)
    ensures Reachable(modules, alwaysOn, Apply(s, step))
  {
    var steps :| Run(Boot(modules, alwaysOn), steps, s);
    assert Run(Apply(s, step), [], Apply(s, step));
    RunConcat(Boot(modules, alwaysOn), steps, s, [step], Apply(s, step));
  }

  /** One state of one module, published before anyone connects. */
  lemma PublishedOnce(topic: Topic, data: Value) returns (s: System)
    ensures Reachable({topic}, [], s)
    ensures s.clients == map[] && s.hub.modules == {topic} && s.hub.snapshots == map[topic := data]
  {
    s := Boot({topic}, []);
    assert Run(s, [], s);
    OneMore({topic}, [], s, Push(Event(topic, data)));
    s := Apply(s, Push(Event(topic, data)));
    OneMore({topic}, [], s, Take);
    s := Apply(s, Take);
    OneMore({topic}, [], s, Publish);
    s := Apply(s, Publish);
  }

  /** Why `AboutToShow` is set apart: between inserting a topic and sending its
      snapshot a subscribed client can be quiet and know nothing of the topic. */
  lemma ShowingWindowIsReal(topic: Topic, data: Value) returns (s: System)
    ensures Reachable({topic}, [], s)
    ensures 0 in s.clients && Open(s.clients[0]) && Quiet(s.hub, s.clients[0])
    ensures topic in s.clients[0].subs && topic in s.hub.snapshots && topic !in Seen(s.clients[0].out)
  {
    s := PublishedOnce(topic, data);
    var ask := ServerModel.Subscribe([topic]);
    OneMore({topic}, [], s, Connect(0));
    s := Apply(s, Connect(0));
    OneMore({topic}, [], s, Request(0, ask));
    s := Apply(s, Request(0, ask));
    OneMore({topic}, [], s, Handle(0));
    s := Apply(s, Handle(0));
    OneMore({topic}, [], s, Handle(0));
    s := Apply(s, Handle(0));
    OneMore({topic}, [], s, Handle(0));
    s := Apply(s, Handle(0));
  }
}
