/** Progress: left alone, the publisher, a forwarder and the cleanup of a connection come
    to their end, so that what is proved of quiet clients is reached from every state. */
module Progress {
  import opened Basics
  import opened HubModel
  import opened ServerModel
  import opened Daemon
  import D = Delivery

  // -- the publisher -----------------------------------------------------------

  /** Pushes still on their way to the snapshots. */
  function Unpublished(h: HubState): nat {
    2 * |h.sink| + if h.taken.Some? then 1 else 0
  }

  /** Each step of the publisher brings a push nearer to its snapshot. */
  lemma PublisherProgress(h: HubState)
    ensures h.taken.None? && h.sink != [] ==> Unpublished(TakeState(h)) < Unpublished(h)
    ensures h.taken.Some? ==> Unpublished(PublishState(h)) < Unpublished(h)
  {
  }

  predicate PublisherSteps(steps: seq<Step>) {
    forall step | step in steps :: step.Take? || step.Publish?
  }

  /** The publisher alone publishes everything that was accepted. */
  lemma {:induction false} PublisherCatchesUp(s: System) returns (steps: seq<Step>, end: System)
    requires D.HubSane(s.hub)
    ensures Run(s, steps, end) && PublisherSteps(steps)
    ensures end.clients == s.clients && end.hub.accepted == s.hub.accepted && D.HubSane(end.hub)
    ensures end.hub.sink == [] && end.hub.taken.None?
    decreases Unpublished(s.hub)
  {
    if s.hub.sink == [] && s.hub.taken.None? {
      steps, end := [], s;
    } else {
      var step := if s.hub.taken.Some? then Publish else Take;
      PublisherProgress(s.hub);
      D.HubStepKeeps(s.hub);
      var rest;
      rest, end := PublisherCatchesUp(Apply(s, step));
      steps := [step] + rest;
      FirstStep(s, step, rest, end);
    }
  }

  lemma FirstStep(s: System, step: Step, rest: seq<Step>, end: System)
    requires Enabled(s, step) && Run(Apply(s, step), rest, end)
    ensures Run(s, [step] + rest, end)
  {
    hide Apply, Enabled;
    assert ([step] + rest)[1..] == rest;
  }

  // -- a forwarder -------------------------------------------------------------

  /** The client is as far as its forwarder can bring it. */
  predicate Settled(h: HubState, c: Client) {
    c.forwarder.Stopped? || Quiet(h, c)
  }

  predicate ForwarderSteps(steps: seq<Step>, id: nat) {
    forall step | step in steps :: step.Forward? && step.id == id
  }

  /** Only the output and the forwarder differ. */
  predicate SameRequests(c: Client, d: Client) {
    d.subs == c.subs && d.handler == c.handler
  }

  lemma ForwardKeeps(s: System, id: nat, pick: Topic)
    requires Enabled(s, Forward(id, pick))
    ensures var t := Apply(s, Forward(id, pick));
            t.hub == s.hub && id in t.clients && SameRequests(s.clients[id], t.clients[id])
            && t.clients[id] == ForwardStep(s.hub, s.clients[id], pick)
  {
  }

  /** A forwarder that is not cleaned up has read everything, or met a closed output, after
      finitely many of its own steps. */
  lemma {:induction false} ForwarderCatchesUp(s: System, id: nat) returns (steps: seq<Step>, end: System)
    requires id in s.clients && s.clients[id].cursor <= |s.hub.log| && !s.clients[id].handler.Cleaning?
    ensures Run(s, steps, end) && ForwarderSteps(steps, id)
    ensures end.hub == s.hub && id in end.clients && SameRequests(s.clients[id], end.clients[id])
    ensures Settled(end.hub, end.clients[id])
    decreases |s.hub.log| - s.clients[id].cursor, InHand(s.clients[id])
  {
    var c := s.clients[id];
    if Settled(s.hub, c) {
      steps, end := [], s;
    } else {
      var pick := Topic("");
      if c.forwarder.Resending? && c.forwarder.topics != {} {
        pick :| pick in c.forwarder.topics;
      }
      var step := Forward(id, pick);
      ForwardProgress(s.hub, c, pick);
      ForwardKeeps(s, id, pick);
      var rest;
      rest, end := ForwarderCatchesUp(Apply(s, step), id);
      steps := [step] + rest;
      FirstStep(s, step, rest, end);
    }
  }

  // -- main results ------------------------------------------------------------

  lemma {:induction false} StillReachable(modules: set<Topic>, alwaysOn: seq<Topic>, s: System, steps: seq<Step>, end: System)
    requires BootOrder(modules, alwaysOn) && Reachable(modules, alwaysOn, s) && Run(s, steps, end)
    ensures Reachable(modules, alwaysOn, end)
  {
    hide Apply, Enabled, Boot;
    var before :| Run(Boot(modules, alwaysOn), before, s);
    D.RunConcat(Boot(modules, alwaysOn), before, s, steps, end);
  }

  /** From every reachable state an open client is brought up to date by its forwarder
      alone: it was then last sent the hub's snapshot of each topic, or it is closed. */
  lemma {:induction false} ClientIsBroughtUpToDate(modules: set<Topic>, alwaysOn: seq<Topic>, s: System, id: nat)
    returns (steps: seq<Step>, end: System)
    requires BootOrder(modules, alwaysOn) && Reachable(modules, alwaysOn, s)
    requires id in s.clients && D.Open(s.clients[id])
    ensures Run(s, steps, end) && ForwarderSteps(steps, id) && end.hub == s.hub
    ensures id in end.clients && SameRequests(s.clients[id], end.clients[id])
    ensures end.clients[id].out.closed || UpToDate(end.hub, end.clients[id])
  {
    D.ReachableInv(modules, alwaysOn, s);
    steps, end := ForwarderCatchesUp(s, id);
    StillReachable(modules, alwaysOn, s, steps, end);
    D.ReachableInv(modules, alwaysOn, end);
    var c := end.clients[id];
    if !c.out.closed {
      assert Quiet(end.hub, c);
      forall topic | topic in c.subs && topic in end.hub.snapshots && !D.AboutToShow(c, topic)
        ensures D.LastSent(end.hub, c, topic) {
        D.DeliveryCoherence(modules, alwaysOn, end, id, topic);
      }
    }
  }

  predicate UpToDate(h: HubState, c: Client) {
    forall topic | topic in c.subs && topic in h.snapshots && !D.AboutToShow(c, topic) :: D.LastSent(h, c, topic)
  }

  /** Every accepted push gets through: from every reachable state the publisher and then
      the client's forwarder, by their own steps, bring an open client to where it was last
      sent the last state accepted for each of its topics, or it is closed. */
  lemma {:induction false} EveryPushArrives(modules: set<Topic>, alwaysOn: seq<Topic>, s: System, id: nat)
    returns (published: seq<Step>, mid: System, forwarded: seq<Step>, end: System)
    requires BootOrder(modules, alwaysOn) && Reachable(modules, alwaysOn, s)
    requires id in s.clients && D.Open(s.clients[id])
    ensures Run(s, published, mid) && PublisherSteps(published) && Run(mid, forwarded, end) && ForwarderSteps(forwarded, id)
    ensures id in end.clients && SameRequests(s.clients[id], end.clients[id])
    ensures var c, accepted := end.clients[id], Cache(s.hub.accepted);
            c.out.closed
            || forall topic | topic in c.subs && topic in accepted && !D.AboutToShow(c, topic) ::
                 topic in Seen(c.out) && Seen(c.out)[topic] == accepted[topic]
  {
    D.ReachableInv(modules, alwaysOn, s);
    published, mid := PublisherCatchesUp(s);
    StillReachable(modules, alwaysOn, s, published, mid);
    forwarded, end := ClientIsBroughtUpToDate(modules, alwaysOn, mid, id);
    assert mid.hub.accepted == mid.hub.log;
  }

  // -- the end of a connection -------------------------------------------------

  predicate CleanupSteps(steps: seq<Step>, id: nat) {
    forall step | step in steps :: (step.CleanUp? || step.CleanedUp? || step.Finish?) && step.id == id
  }

  /** A connection that hung up gives back its shares and its slot by its own steps. */
  lemma {:induction false} CleanupEnds(s: System, id: nat) returns (steps: seq<Step>, end: System)
    requires id in s.clients && (s.clients[id].handler.Cleaning? || s.clients[id].handler.Draining?)
    ensures Run(s, steps, end) && CleanupSteps(steps, id)
    ensures end.clients == s.clients - {id}
    decreases s.clients[id].handler.Cleaning?, if s.clients[id].handler.Cleaning? then |s.clients[id].handler.left| else 0
  {
    var handler := s.clients[id].handler;
    var step;
    if handler.Draining? {
      step := Finish(id);
      var t := Apply(s, step);
      steps, end := [step] + [], t;
      FirstStep(s, step, [], t);
    } else {
      if handler.left == {} {
        step := CleanedUp(id);
      } else {
        var topic :| topic in handler.left;
        step := CleanUp(id, topic);
      }
      var t := Apply(s, step);
      assert t.clients - {id} == s.clients - {id};
      var rest;
      rest, end := CleanupEnds(t, id);
      steps := [step] + rest;
      FirstStep(s, step, rest, end);
    }
  }
}
