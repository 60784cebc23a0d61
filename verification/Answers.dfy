/** What is written to a client besides the states it follows: one answer to each request,
    and nothing of topics it does not follow. */
module Answers {
  import opened Basics
  import opened HubModel
  import opened ServerModel
  import opened Daemon
  import Conservation
  import Requests

  // -- one answer to each request ----------------------------------------------

  /** Answers of call tasks that finish during a run. */
  function CallAnswers(steps: seq<Step>, id: nat): multiset<bool> {
    if steps == [] then multiset{}
    else CallAnswers(steps[1..], id) + if steps[0].CallReply? && steps[0].id == id then multiset{steps[0].ok} else multiset{}
  }

  /** With `given` answered so far, the request in hand is heading for `verdict`. */
  predicate Due(modules: set<Topic>, c: Client, given: multiset<bool>, verdict: bool) {
    && c.subs <= modules && HandlerSane(modules, c)
    && (!c.out.closed ==>
          if Handling(c) then multiset(Replies(c.out)) == given && Outlook(modules, c.handler) == verdict
          else multiset(Replies(c.out)) == given + multiset{verdict})
  }

  /** A step of the handler in hand. */
  lemma HandleDue(h: HubState, c: Client, given: multiset<bool>, verdict: bool)
    requires Handling(c) && Due(h.modules, c, given, verdict)
    ensures var (k, d) := HandleStep(h, c); k.modules == h.modules && Due(k.modules, d, given, verdict)
  {
    hide HandleStep, Replies, Outlook;
    HandleProgress(h, c);
    HandleReplies(h, c);
  }

  /** Any other line the connection writes. */
  lemma OutputDue(modules: set<Topic>, c: Client, d: Client, more: seq<bool>, given: multiset<bool>, verdict: bool)
    requires Due(modules, c, given, verdict) && d.subs == c.subs && d.handler == c.handler
    requires !d.out.closed ==> !c.out.closed && Replies(d.out) == Replies(c.out) + more
    ensures Due(modules, d, given + multiset(more), verdict)
  {
    hide Replies, Outlook;
    assert multiset(Replies(c.out) + more) == multiset(Replies(c.out)) + multiset(more);
    assert given + multiset{verdict} + multiset(more) == given + multiset(more) + multiset{verdict};
  }

  lemma StepAnswers(s: System, step: Step, id: nat, given: multiset<bool>, verdict: bool)
    requires id in s.clients && Due(s.hub.modules, s.clients[id], given, verdict)
    requires Enabled(s, step) && Requests.Between(id, step)
    ensures var t, more := Apply(s, step), if step.CallReply? && step.id == id then multiset{step.ok} else multiset{};
            id in t.clients && t.hub.modules == s.hub.modules && Due(t.hub.modules, t.clients[id], given + more, verdict)
  {
    hide Due, HandleStep, ForwardStep, SendLine, WriteLine;
    var c := s.clients[id];
    var modules := s.hub.modules;
    assert given + multiset{} == given;
    if Owner(step) == Some(id) {
      match step
      case Handle(_) => HandleDue(s.hub, c, given, verdict);
      case Forward(_, pick) =>
        ForwardAnswers(s.hub, c, pick);
        OutputDue(modules, c, ForwardStep(s.hub, c, pick), [], given, verdict);
      case CallReply(_, ok) =>
        CallSent(c.out, ok);
        OutputDue(modules, c, c.(out := SendLine(c.out, ReplyLine(ok)).0), [ok], given, verdict);
      case Write(_, ok) =>
        WriteAnswers(c.out, ok);
        OutputDue(modules, c, c.(out := WriteLine(c.out, ok)), [], given, verdict);
    } else {
      OthersLeaveAlone(s, step, id);
    }
  }

  lemma CallSent(out: Out, ok: bool)
    ensures var r := SendLine(out, ReplyLine(ok)).0; !r.closed ==> !out.closed && Replies(r) == Replies(out) + [ok]
  {
    RepliesSent(out, ReplyLine(ok));
  }

  /** What other connections and the modules do leaves this connection as it is. */
  lemma OthersLeaveAlone(s: System, step: Step, id: nat)
    requires id in s.clients && Enabled(s, step) && Owner(step) != Some(id)
    ensures var t := Apply(s, step); id in t.clients && t.clients[id] == s.clients[id] && t.hub.modules == s.hub.modules
  {
  }

  lemma ForwardAnswers(h: HubState, c: Client, pick: Topic)
    requires c.cursor <= |h.log| && CanForward(c, pick)
    ensures var d := ForwardStep(h, c, pick);
            Replies(d.out) == Replies(c.out) && (c.out.closed ==> d.out.closed) && d.subs == c.subs && d.handler == c.handler
  {
    if c.forwarder.Holding? {
      RepliesSent(c.out, EventLine(c.forwarder.event));
    } else if c.forwarder.Resending? && pick in h.snapshots {
      RepliesSent(c.out, EventLine(Event(pick, h.snapshots[pick])));
    }
  }

  lemma WriteAnswers(out: Out, ok: bool)
    requires out.queue != [] && !out.hungUp
    ensures !WriteLine(out, ok).closed ==> Replies(WriteLine(out, ok)) == Replies(out) && !out.closed
  {
  }

  lemma {:induction false} RunAnswers(s: System, steps: seq<Step>, end: System, id: nat, given: multiset<bool>, verdict: bool)
    requires id in s.clients && Due(s.hub.modules, s.clients[id], given, verdict)
    requires Run(s, steps, end) && forall step | step in steps :: Requests.Between(id, step)
    ensures id in end.clients && end.hub.modules == s.hub.modules
    ensures Due(end.hub.modules, end.clients[id], given + CallAnswers(steps, id), verdict)
    decreases |steps|
  {
    hide Apply, Enabled, Due, Requests.Between;
    if steps == [] {
      assert given + CallAnswers(steps, id) == given;
    } else {
      var more := if steps[0].CallReply? && steps[0].id == id then multiset{steps[0].ok} else multiset{};
      StepAnswers(s, steps[0], id, given, verdict);
      RunAnswers(Apply(s, steps[0]), steps[1..], end, id, given + more, verdict);
      assert given + more + CallAnswers(steps[1..], id) == given + CallAnswers(steps, id);
    }
  }

  lemma StartIsDue(modules: set<Topic>, c: Client, request: ServerModel.Request)
    requires c.handler.Reading? && c.subs <= modules
    ensures Due(modules, StartRequest(c, request), multiset(Replies(c.out)), Verdict(modules, request))
  {
    if request.Other? {
      RepliesSent(c.out, ReplyLine(request.ok));
    }
  }

  /** Whatever runs in between, a request that is through was answered exactly once, with
      success iff it could be met; the other answers are those of calls. */
  lemma {:induction false} RequestIsAnsweredOnce(modules: set<Topic>, alwaysOn: seq<Topic>, s: System, id: nat,
                                                 request: ServerModel.Request, steps: seq<Step>, end: System)
    requires BootOrder(modules, alwaysOn) && Reachable(modules, alwaysOn, s)
    requires Enabled(s, Step.Request(id, request)) && Run(Apply(s, Step.Request(id, request)), steps, end)
    requires forall step | step in steps :: Requests.Between(id, step)
    ensures id in end.clients
    ensures var c := end.clients[id];
            c.handler.Reading? && !c.out.closed ==>
              multiset(Replies(c.out)) ==
              multiset(Replies(s.clients[id].out)) + CallAnswers(steps, id) + multiset{Verdict(s.hub.modules, request)}
  {
    Conservation.ReachableInv(modules, alwaysOn, s);
    var given, verdict := multiset(Replies(s.clients[id].out)), Verdict(s.hub.modules, request);
    assert s.clients[id].subs <= s.hub.modules by {
      assert Conservation.Settled(s.hub, s.clients[id]);
    }
    StartIsDue(s.hub.modules, s.clients[id], request);
    RunAnswers(Apply(s, Step.Request(id, request)), steps, end, id, given, verdict);
  }

  // -- nothing of other topics -------------------------------------------------

  /** How often a topic's events were sent to a client. */
  function CountOf(events: seq<Event>, topic: Topic): nat {
    if events == [] then 0
    else
      var n := |events| - 1;
      CountOf(events[..n], topic) + if events[n].topic == topic then 1 else 0
  }

  function TimesSent(out: Out, topic: Topic): nat {
    CountOf(EventsOf(Sent(out)), topic)
  }

  /** The client does not follow the topic, is not about to, and no resend has it. */
  predicate Unfollowed(c: Client, topic: Topic) {
    && topic !in c.subs
    && (c.handler.Subscribing? ==> topic !in c.handler.todo)
    && (c.forwarder.Resending? ==> topic !in c.forwarder.topics)
  }

  /** The connection stays and does not ask for the topic. */
  predicate DoesNotAsk(step: Step, id: nat, topic: Topic) {
    && step != Finish(id)
    && (step.Request? && step.id == id && step.request.Subscribe? ==> topic !in step.request.topics)
  }

  lemma SentOther(out: Out, line: Line, topic: Topic)
    requires line.EventLine? ==> line.event.topic != topic
    ensures TimesSent(SendLine(out, line).0, topic) == TimesSent(out, topic)
  {
    var lines := Sent(out);
    assert (lines + [line])[..|lines|] == lines;
    if line.EventLine? {
      assert (EventsOf(lines) + [line.event])[..|EventsOf(lines)|] == EventsOf(lines);
    }
  }

  lemma {:induction false} CountConcat(a: seq<Event>, b: seq<Event>, topic: Topic)
    ensures CountOf(a + b, topic) == CountOf(a, topic) + CountOf(b, topic)
  {
    if b == [] {
      assert a + b == a;
    } else {
      assert (a + b)[..|a| + |b| - 1] == a + b[..|b| - 1];
      CountConcat(a, b[..|b| - 1], topic);
    }
  }

  lemma {:induction false} EventsConcat(a: seq<Line>, b: seq<Line>)
    ensures EventsOf(a + b) == EventsOf(a) + EventsOf(b)
  {
    if b == [] {
      assert a + b == a;
    } else {
      assert (a + b)[..|a| + |b| - 1] == a + b[..|b| - 1];
      EventsConcat(a, b[..|b| - 1]);
    }
  }

  /** A failed write loses a line and adds none. */
  lemma WriteAddsNothing(out: Out, ok: bool, topic: Topic)
    requires out.queue != [] && !out.hungUp
    ensures TimesSent(WriteLine(out, ok), topic) <= TimesSent(out, topic)
  {
    if !ok {
      var written, first, rest := WriteLine(out, ok).written, [out.queue[0]], out.queue[1..];
      assert out.queue == first + rest;
      LoseOne(out.written, first, rest, topic);
    }
  }

  lemma LoseOne(a: seq<Line>, b: seq<Line>, c: seq<Line>, topic: Topic)
    ensures CountOf(EventsOf(a + c), topic) <= CountOf(EventsOf(a + (b + c)), topic)
  {
    hide EventsOf, CountOf;
    EventsConcat(a, c);
    EventsConcat(a, b + c);
    EventsConcat(b, c);
    CountConcat(EventsOf(a), EventsOf(c), topic);
    CountConcat(EventsOf(a), EventsOf(b) + EventsOf(c), topic);
    CountConcat(EventsOf(b), EventsOf(c), topic);
  }

  lemma HandleSilent(h: HubState, c: Client, topic: Topic)
    requires Handling(c) && HandlerSane(h.modules, c) && Unfollowed(c, topic)
    ensures var d := HandleStep(h, c).1; Unfollowed(d, topic) && TimesSent(d.out, topic) <= TimesSent(c.out, topic)
  {
    var todo := c.handler.todo;
    match c.handler
    case Subscribing(_, stage, failed) =>
      if todo == [] {
        SentOther(c.out, ReplyLine(!failed), topic);
      } else if stage.Showing? && todo[0] in h.snapshots {
        SentOther(c.out, EventLine(Event(todo[0], h.snapshots[todo[0]])), topic);
      }
    case Unsubscribing(_, _) => SentOther(c.out, ReplyLine(true), topic);
  }

  lemma ForwardSilent(h: HubState, c: Client, pick: Topic, topic: Topic)
    requires c.cursor <= |h.log| && CanForward(c, pick) && Unfollowed(c, topic)
    ensures var d := ForwardStep(h, c, pick); Unfollowed(d, topic) && TimesSent(d.out, topic) <= TimesSent(c.out, topic)
  {
    match c.forwarder
    case Holding(e) =>
      if e.topic in c.subs {
        SentOther(c.out, EventLine(e), topic);
      }
    case Resending(topics) =>
      if topics != {} && pick in h.snapshots {
        SentOther(c.out, EventLine(Event(pick, h.snapshots[pick])), topic);
      }
    case _ =>
  }

  /** What stays as it is while a topic is not asked for. */
  predicate Silent(s: System, id: nat, topic: Topic, times: nat) {
    && id in s.clients
    && HandlerSane(s.hub.modules, s.clients[id])
    && Unfollowed(s.clients[id], topic)
    && TimesSent(s.clients[id].out, topic) <= times
  }

  lemma StepSilent(s: System, step: Step, id: nat, topic: Topic, times: nat)
    requires Silent(s, id, topic, times) && Enabled(s, step) && DoesNotAsk(step, id, topic)
    ensures Silent(Apply(s, step), id, topic, times)
  {
    hide TimesSent;
    var c := s.clients[id];
    if Owner(step) == Some(id) {
      match step
      case Handle(_) =>
        HandleProgress(s.hub, c);
        HandleSilent(s.hub, c, topic);
      case Forward(_, pick) => ForwardSilent(s.hub, c, pick, topic);
      case CallReply(_, ok) => SentOther(c.out, ReplyLine(ok), topic);
      case Write(_, ok) => WriteAddsNothing(c.out, ok, topic);
      case Request(_, request) =>
        if request.Other? {
          SentOther(c.out, ReplyLine(request.ok), topic);
        }
      case _ =>
    }
  }

  /** In every run: a client that does not follow a topic and does not ask for it is sent
      nothing of it, whatever is published, held or resent. */
  lemma {:induction false} UnfollowedIsSilent(s: System, steps: seq<Step>, end: System, id: nat, topic: Topic, times: nat)
    requires Silent(s, id, topic, times) && Run(s, steps, end)
    requires forall step | step in steps :: DoesNotAsk(step, id, topic)
    ensures Silent(end, id, topic, times)
    decreases |steps|
  {
    hide Apply, Enabled, Silent, DoesNotAsk;
    if steps != [] {
      StepSilent(s, steps[0], id, topic, times);
      UnfollowedIsSilent(Apply(s, steps[0]), steps[1..], end, id, topic, times);
    }
  }

  /** A new connection starts that way for every topic, with nothing old left to read. */
  lemma NewIsSilent(s: System, id: nat, topic: Topic)
    requires Enabled(s, Connect(id))
    ensures var t := Apply(s, Connect(id)); Silent(t, id, topic, 0) && Quiet(t.hub, t.clients[id])
  {
  }

  /** The forwarder is gone and requests are over. */
  predicate Drained(s: System, id: nat, topic: Topic, times: nat) {
    && id in s.clients && s.clients[id].handler.Draining? && s.clients[id].forwarder.Stopped?
    && TimesSent(s.clients[id].out, topic) <= times
  }

  lemma StepDrained(s: System, step: Step, id: nat, topic: Topic, times: nat)
    requires Drained(s, id, topic, times) && Enabled(s, step) && step != Finish(id)
    ensures Drained(Apply(s, step), id, topic, times)
  {
    hide TimesSent;
    var c := s.clients[id];
    if Owner(step) == Some(id) {
      match step
      case CallReply(_, ok) => SentOther(c.out, ReplyLine(ok), topic);
      case Write(_, ok) => WriteAddsNothing(c.out, ok, topic);
      case _ =>
    }
  }

  lemma {:induction false} RunDrained(s: System, steps: seq<Step>, end: System, id: nat, topic: Topic, times: nat)
    requires Drained(s, id, topic, times) && Run(s, steps, end) && Finish(id) !in steps
    ensures Drained(end, id, topic, times)
    decreases |steps|
  {
    hide Apply, Enabled, Drained;
    if steps != [] {
      StepDrained(s, steps[0], id, topic, times);
      RunDrained(Apply(s, steps[0]), steps[1..], end, id, topic, times);
    }
  }

  /** Once its subscriptions are given back, no event is sent to a connection any more. */
  lemma CleanedUpIsSilent(s: System, id: nat, steps: seq<Step>, end: System, topic: Topic)
    requires Enabled(s, CleanedUp(id)) && Run(Apply(s, CleanedUp(id)), steps, end) && Finish(id) !in steps
    ensures id in end.clients && TimesSent(end.clients[id].out, topic) <= TimesSent(s.clients[id].out, topic)
  {
    RunDrained(Apply(s, CleanedUp(id)), steps, end, id, topic, TimesSent(s.clients[id].out, topic));
  }
}
