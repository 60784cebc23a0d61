/** One connection of the socket server (`backend/src/ipc/server.rs`): its bounded
    output queue, the event forwarder, and the request handler, cut into the
    steps between two awaits. */
module ServerModel {
  import opened Basics
  import opened HubModel

  const CLIENT_QUEUE: nat := 512

  datatype Line = EventLine(event: Event) | ReplyLine(ok: bool)

  // -- output ------------------------------------------------------------------

  /** `written` is what the writer task has put on the socket; `hungUp` is set when
      the writer task ended and dropped its end of the queue. */
  datatype Out = Out(closed: bool, hungUp: bool, queue: seq<Line>, written: seq<Line>)

  function Sent(out: Out): seq<Line> {
    out.written + out.queue
  }

  function SendLine(out: Out, line: Line): (r: (Out, bool))
    ensures r.1 <==> !out.closed && !out.hungUp && |out.queue| < CLIENT_QUEUE
    ensures r.1 ==> Sent(r.0) == Sent(out) + [line] && !r.0.closed
    ensures !r.1 ==> r.0.closed && Sent(r.0) == Sent(out)
    ensures r.0.written == out.written && r.0.hungUp == out.hungUp
  {
    if out.closed then (out, false)
    else if out.hungUp || |out.queue| == CLIENT_QUEUE then (out.(closed := true), false)
    else if |out.queue| < CLIENT_QUEUE then
      assert out.written + (out.queue + [line]) == out.written + out.queue + [line];
      (out.(queue := out.queue + [line]), true)
    else (out.(closed := true), false)
  }

  /** The writer task takes one line; a failed write ends it and marks the client. */
  function WriteLine(out: Out, ok: bool): (r: Out)
    requires out.queue != [] && !out.hungUp
    ensures r.queue == out.queue[1..]
    ensures if ok then Sent(r) == Sent(out) && r.closed == out.closed && !r.hungUp else r.closed && r.hungUp
  {
    if ok then
      assert out.written + [out.queue[0]] + out.queue[1..] == out.written + out.queue;
      out.(written := out.written + [out.queue[0]], queue := out.queue[1..])
    else out.(closed := true, hungUp := true, queue := out.queue[1..])
  }

  /** The event lines among the lines sent to a client. */
  function EventsOf(lines: seq<Line>): seq<Event> {
    if lines == [] then []
    else
      var n := |lines| - 1;
      match lines[n]
      case EventLine(e) => EventsOf(lines[..n]) + [e]
      case ReplyLine(_) => EventsOf(lines[..n])
  }

  /** What the client knows of each topic after reading everything sent to it. */
  function Seen(out: Out): map<Topic, Value> {
    Cache(EventsOf(Sent(out)))
  }

  lemma CacheAppend(events: seq<Event>, e: Event)
    ensures Cache(events + [e]) == Cache(events)[e.topic := e.data]
  {
    assert (events + [e])[..|events|] == events;
  }

  lemma SeenSent(out: Out, line: Line)
    ensures var r := SendLine(out, line);
            r.1 && line.EventLine? ==> Seen(r.0) == Seen(out)[line.event.topic := line.event.data]
    ensures SendLine(out, line).1 && line.ReplyLine? ==> Seen(SendLine(out, line).0) == Seen(out)
    ensures !SendLine(out, line).1 ==> Seen(SendLine(out, line).0) == Seen(out)
  {
    var lines := Sent(out);
    assert (lines + [line])[..|lines|] == lines;
    if line.EventLine? {
      CacheAppend(EventsOf(lines), line.event);
    }
  }

  // -- forwarder and handler ---------------------------------------------------

  /** Where the forwarder task is: waiting for an event, holding one until it gets
      the subscription lock, told that it lagged, or resending snapshots. */
  datatype Forwarder =
    | Idle
    | Holding(event: Event)
    | Lagged
    | Resending(topics: set<Topic>)
    | Stopped

  datatype Stage = Checking | Acquiring | Inserting | Showing

  /** Where the connection task is. `todo` are the topics of the request it still has
      to go through; `Cleaning` holds the subscription lock. */
  datatype Handler =
    | Reading
    | Subscribing(todo: seq<Topic>, stage: Stage, failed: bool)
    | Unsubscribing(todo: seq<Topic>, releasing: bool)
    | Cleaning(left: set<Topic>)
    | Draining

  datatype Request =
    | Subscribe(topics: seq<Topic>)
    | Unsubscribe(topics: seq<Topic>)
    | Other(ok: bool)  // describe, a refused or malformed line: one reply

  datatype Client = Client(
    subs: set<Topic>,
    out: Out,
    cursor: nat,
    forwarder: Forwarder,
    handler: Handler)

  /** A new connection: its receiver exists before its first subscription. */
  function NewClient(h: HubState): Client {
    Client({}, Out(false, false, [], []), |h.log|, Idle, Reading)
  }

  // -- the handler, one await at a time ----------------------------------------

  function StartRequest(c: Client, request: Request): Client
    requires c.handler.Reading?
  {
    match request
    case Subscribe(topics) => c.(handler := Subscribing(topics, Checking, false))
    case Unsubscribe(topics) => c.(handler := Unsubscribing(topics, false))
    case Other(ok) => c.(out := SendLine(c.out, ReplyLine(ok)).0)
  }

  predicate Handling(c: Client) {
    c.handler.Subscribing? || c.handler.Unsubscribing?
  }

  function SubscribeStep(h: HubState, c: Client): (HubState, Client)
    requires c.handler.Subscribing?
  {
    var Subscribing(todo, stage, failed) := c.handler;
    if todo == [] then (h, c.(out := SendLine(c.out, ReplyLine(!failed)).0, handler := Reading))
    else
      var topic := todo[0];
      match stage
      case Checking =>
        (h, c.(handler := Subscribing(todo, if topic in c.subs then Showing else Acquiring, failed)))
      case Acquiring =>
        if topic in h.modules then (AcquireState(h, topic), c.(handler := Subscribing(todo, Inserting, failed)))
        else (h, c.(handler := Subscribing(todo[1..], Checking, true)))
      case Inserting =>
        (h, c.(subs := c.subs + {topic}, handler := Subscribing(todo, Showing, failed)))
      case Showing =>
        var out := if topic in h.snapshots
                   then SendLine(c.out, EventLine(Event(topic, h.snapshots[topic]))).0
                   else c.out;
        (h, c.(out := out, handler := Subscribing(todo[1..], Checking, failed)))
  }

  function UnsubscribeStep(h: HubState, c: Client): (HubState, Client)
    requires c.handler.Unsubscribing?
  {
    var Unsubscribing(todo, releasing) := c.handler;
    if todo == [] then (h, c.(out := SendLine(c.out, ReplyLine(true)).0, handler := Reading))
    else
      var topic := todo[0];
      if releasing then (ReleaseState(h, topic), c.(handler := Unsubscribing(todo[1..], false)))
      else if topic in c.subs then (h, c.(subs := c.subs - {topic}, handler := Unsubscribing(todo, true)))
      else (h, c.(handler := Unsubscribing(todo[1..], false)))
  }

  function HandleStep(h: HubState, c: Client): (HubState, Client)
    requires Handling(c)
  {
    if c.handler.Subscribing? then SubscribeStep(h, c) else UnsubscribeStep(h, c)
  }

  // -- the forwarder, one await at a time --------------------------------------

  /** `pick` is the topic a resend comes to next: set order is arbitrary. */
  predicate CanForward(c: Client, pick: Topic) {
    match c.forwarder
    case Idle => true
    case Holding(_) => !c.handler.Cleaning?
    case Lagged => !c.handler.Cleaning?
    case Resending(topics) => topics == {} || pick in topics
    case Stopped => false
  }

  function ForwardStep(h: HubState, c: Client, pick: Topic): Client
    requires c.cursor <= |h.log| && CanForward(c, pick)
  {
    match c.forwarder
    case Idle =>
      var (received, cursor) := Receive(h.log, c.cursor);
      (match received
       case Nothing => c
       case Got(e) => c.(cursor := cursor, forwarder := Holding(e))
       case Lag(_) => c.(cursor := cursor, forwarder := Lagged))
    case Holding(e) =>
      if e.topic in c.subs then
        var (out, ok) := SendLine(c.out, EventLine(e));
        c.(out := out, forwarder := if ok then Idle else Stopped)
      else c.(forwarder := Idle)
    case Lagged => c.(forwarder := Resending(c.subs))
    case Resending(topics) =>
      if topics == {} then c.(forwarder := Idle)
      else if pick in h.snapshots then
        var (out, ok) := SendLine(c.out, EventLine(Event(pick, h.snapshots[pick])));
        c.(out := out, forwarder := if ok then Resending(topics - {pick}) else Stopped)
      else c.(forwarder := Resending(topics - {pick}))
  }

  /** Everything was read and nothing is in hand. */
  predicate Quiet(h: HubState, c: Client) {
    c.forwarder.Idle? && c.cursor == |h.log|
  }

  /** What the forwarder still has in hand, in steps. */
  function InHand(c: Client): nat {
    match c.forwarder
    case Idle => 0
    case Holding(_) => 1
    case Lagged => 2 + |c.subs|
    case Resending(topics) => 1 + |topics|
    case Stopped => 0
  }

  /** Each step of the forwarder brings it closer to having read everything: it reads an
      event or loses some, and otherwise has less in hand. */
  lemma ForwardProgress(h: HubState, c: Client, pick: Topic)
    requires c.cursor <= |h.log| && CanForward(c, pick) && !Quiet(h, c)
    ensures var d := ForwardStep(h, c, pick);
            && c.cursor <= d.cursor <= |h.log|
            && (d.cursor == c.cursor ==> InHand(d) < InHand(c))
  {
  }

  // -- what a request is for ---------------------------------------------------

  function Known(modules: set<Topic>, topics: seq<Topic>): set<Topic> {
    set t | t in topics && t in modules
  }

  function Named(topics: seq<Topic>): set<Topic> {
    set t | t in topics
  }

  /** The subscriptions a request asks for. Unknown topics are refused one by one. */
  function RequestEffect(modules: set<Topic>, subs: set<Topic>, request: Request): set<Topic> {
    match request
    case Subscribe(topics) => subs + Known(modules, topics)
    case Unsubscribe(topics) => subs - Named(topics)
    case Other(_) => subs
  }

  /** The subscriptions once the request being handled is done. */
  function Goal(modules: set<Topic>, c: Client): set<Topic> {
    match c.handler
    case Subscribing(todo, _, _) => c.subs + Known(modules, todo)
    case Unsubscribing(todo, _) => c.subs - Named(todo)
    case _ => c.subs
  }

  /** Steps the handler still has to make. */
  function StepsLeft(handler: Handler): nat {
    match handler
    case Subscribing(todo, stage, _) =>
      4 * |todo| + 4 - (match stage case Checking => 0 case Acquiring => 1 case Inserting => 2 case Showing => 3)
    case Unsubscribing(todo, releasing) => 4 * |todo| + 4 - if releasing then 1 else 0
    case _ => 0
  }

  /** Only known topics get inserted, a shown topic was inserted, and a topic about
      to be released was removed. */
  predicate HandlerSane(modules: set<Topic>, c: Client) {
    match c.handler
    case Subscribing(todo, stage, _) =>
      if todo == [] then stage.Checking?
      else (stage.Inserting? ==> todo[0] in modules) && (stage.Showing? ==> todo[0] in c.subs)
    case Unsubscribing(todo, releasing) => releasing ==> todo != [] && todo[0] !in c.subs
    case _ => true
  }

  /** The answers among the lines sent to a client. */
  function RepliesOf(lines: seq<Line>): seq<bool> {
    if lines == [] then []
    else
      var n := |lines| - 1;
      RepliesOf(lines[..n]) + match lines[n] case EventLine(_) => [] case ReplyLine(ok) => [ok]
  }

  function Replies(out: Out): seq<bool> {
    RepliesOf(Sent(out))
  }

  lemma RepliesSent(out: Out, line: Line)
    ensures var (r, ok) := SendLine(out, line);
            Replies(r) == if ok && line.ReplyLine? then Replies(out) + [line.ok] else Replies(out)
  {
    var lines := Sent(out);
    assert (lines + [line])[..|lines|] == lines;
  }

  /** The answer a request should get: a subscription succeeds iff all topics are known. */
  function Verdict(modules: set<Topic>, request: Request): bool {
    match request
    case Subscribe(topics) => forall t | t in topics :: t in modules
    case Unsubscribe(_) => true
    case Other(ok) => ok
  }

  /** The answer the request in hand is heading for. */
  function Outlook(modules: set<Topic>, handler: Handler): bool {
    match handler
    case Subscribing(todo, _, failed) => !failed && forall t | t in todo :: t in modules
    case _ => true
  }

  predicate KeepsAnswer(h: HubState, c: Client, k: HubState, d: Client) {
    && d.subs <= k.modules
    && (c.out.closed ==> d.out.closed)
    && (if Handling(d) then Replies(d.out) == Replies(c.out) && Outlook(h.modules, d.handler) == Outlook(h.modules, c.handler)
        else d.out.closed || Replies(d.out) == Replies(c.out) + [Outlook(h.modules, c.handler)])
  }

  /** Each step of the handler keeps the answer in sight, and the last one gives it. */
  lemma HandleReplies(h: HubState, c: Client)
    requires Handling(c) && HandlerSane(h.modules, c) && c.subs <= h.modules
    ensures var (k, d) := HandleStep(h, c); KeepsAnswer(h, c, k, d)
  {
    hide KeepsAnswer;
    if c.handler.Subscribing? {
      SubscribeReplies(h, c);
    } else {
      UnsubscribeReplies(h, c);
    }
  }

  lemma SubscribeReplies(h: HubState, c: Client)
    requires c.handler.Subscribing? && HandlerSane(h.modules, c) && c.subs <= h.modules
    ensures var (k, d) := SubscribeStep(h, c); KeepsAnswer(h, c, k, d)
  {
    hide Replies, SendLine;
    var Subscribing(todo, stage, failed) := c.handler;
    AnswerSent(c.out, !failed);
    if todo != [] {
      assert forall t :: t in todo <==> t == todo[0] || t in todo[1..];
      if stage.Showing? && todo[0] in h.snapshots {
        ShownSent(c.out, Event(todo[0], h.snapshots[todo[0]]));
      }
    }
  }

  lemma UnsubscribeReplies(h: HubState, c: Client)
    requires c.handler.Unsubscribing? && c.subs <= h.modules
    ensures var (k, d) := UnsubscribeStep(h, c); KeepsAnswer(h, c, k, d)
  {
    hide Replies, SendLine;
    AnswerSent(c.out, true);
  }

  lemma AnswerSent(out: Out, ok: bool)
    ensures var r := SendLine(out, ReplyLine(ok)).0;
            (out.closed ==> r.closed) && (r.closed || Replies(r) == Replies(out) + [ok])
  {
    RepliesSent(out, ReplyLine(ok));
  }

  lemma ShownSent(out: Out, e: Event)
    ensures var r := SendLine(out, EventLine(e)).0; (out.closed ==> r.closed) && Replies(r) == Replies(out)
  {
    RepliesSent(out, EventLine(e));
  }

  /** Of the topics asked for, those that are done were shown their snapshot last. */
  predicate ShownSoFar(h: HubState, c: Client, topics: seq<Topic>)
    requires c.handler.Subscribing?
  {
    forall t | t in topics && t !in c.handler.todo && t in h.modules && t in h.snapshots ::
      t in Seen(c.out) && Seen(c.out)[t] == h.snapshots[t]
  }

  predicate Shown(h: HubState, out: Out, topics: seq<Topic>) {
    forall t | t in topics && t in h.modules && t in h.snapshots :: t in Seen(out) && Seen(out)[t] == h.snapshots[t]
  }

  lemma HandleShows(h: HubState, c: Client, topics: seq<Topic>)
    requires c.handler.Subscribing? && ShownSoFar(h, c, topics)
    ensures var (k, d) := SubscribeStep(h, c);
            && k.snapshots == h.snapshots && k.modules == h.modules
            && (d.handler.Subscribing? && !d.out.closed ==> ShownSoFar(k, d, topics))
            && (d.handler.Reading? ==> c.handler.todo == [] && Seen(d.out) == Seen(c.out))
  {
    hide Seen, SendLine;
    var Subscribing(todo, stage, failed) := c.handler;
    if todo == [] {
      SeenAfter(c.out, ReplyLine(!failed));
    } else {
      assert forall t :: t in todo <==> t == todo[0] || t in todo[1..];
      if stage.Showing? && todo[0] in h.snapshots {
        SeenAfter(c.out, EventLine(Event(todo[0], h.snapshots[todo[0]])));
      }
    }
  }

  lemma SeenAfter(out: Out, line: Line)
    ensures var r := SendLine(out, line).0;
            && (out.closed ==> r.closed)
            && (line.EventLine? && !r.closed ==> Seen(r) == Seen(out)[line.event.topic := line.event.data])
            && (line.ReplyLine? ==> Seen(r) == Seen(out))
  {
    SeenSent(out, line);
  }

  /** Each step of the handler keeps its goal and gets closer to it. */
  lemma HandleProgress(h: HubState, c: Client)
    requires Handling(c) && HandlerSane(h.modules, c)
    ensures var (k, d) := HandleStep(h, c);
            && k.modules == h.modules
            && Goal(h.modules, d) == Goal(h.modules, c)
            && HandlerSane(h.modules, d)
            && (Handling(d) || d.handler.Reading?)
            && StepsLeft(d.handler) < StepsLeft(c.handler)
  {
    var (k, d) := HandleStep(h, c);
    var todo := c.handler.todo;
    if todo != [] {
      assert forall t :: t in todo <==> t == todo[0] || t in todo[1..];
    }
    assert forall t :: t in Goal(h.modules, d) <==> t in Goal(h.modules, c);
  }

  // -- in place ----------------------------------------------------------------

  class ClientOut {
    var closed: bool
    var hungUp: bool
    var queue: seq<Line>
    ghost var written: seq<Line>

    ghost function View(): Out
      reads this
    {
      Out(closed, hungUp, queue, written)
    }

    constructor ()
      ensures View() == Out(false, false, [], [])
    {
      closed, hungUp, queue, written := false, false, [], [];
    }

    method Close()
      modifies this`closed
      ensures closed
    {
      closed := true;
    }

    method Send(line: Line) returns (ok: bool)
      modifies this
      ensures (View(), ok) == SendLine(old(View()), line)
    {
      if closed {
        return false;
      }
      if !hungUp && |queue| < CLIENT_QUEUE {
        queue := queue + [line];
        return true;
      }
      Close();
      return false;
    }

    /** One turn of the writer task. */
    method Write(ok: bool)
      requires queue != [] && !hungUp
      modifies this
      ensures View() == WriteLine(old(View()), ok)
    {
      if ok {
        written := written + [queue[0]];
      } else {
        closed, hungUp := true, true;
      }
      queue := queue[1..];
    }
  }

  class Session {
    const hub: Hub
    const out: ClientOut
    var subs: set<Topic>
    var cursor: nat
    var forwarder: Forwarder
    var handler: Handler

    ghost function View(): Client
      reads this, out
    {
      Client(subs, out.View(), cursor, forwarder, handler)
    }

    constructor (hub: Hub)
      ensures this.hub == hub && fresh(out)
      ensures View() == NewClient(hub.View())
      ensures subs == {} && handler.Reading? && Quiet(hub.View(), View())
    {
      this.hub := hub;
      out := new ClientOut();
      subs, cursor, forwarder, handler := {}, |hub.log|, Idle, Reading;
    }

    method Start(request: Request)
      requires handler.Reading?
      modifies this, out
      ensures View() == StartRequest(old(View()), request)
    {
      match request
      case Subscribe(topics) => handler := Subscribing(topics, Checking, false);
      case Unsubscribe(topics) => handler := Unsubscribing(topics, false);
      case Other(ok) => var _ := out.Send(ReplyLine(ok));
    }

    method Handle()
      requires Handling(View())
      modifies this, out, hub
      ensures (hub.View(), View()) == HandleStep(old(hub.View()), old(View()))
    {
      match handler {
        case Subscribing(todo, stage, failed) =>
          if todo == [] {
            var _ := out.Send(ReplyLine(!failed));
            handler := Reading;
            return;
          }
          var topic := todo[0];
          match stage {
            case Checking =>
              handler := Subscribing(todo, if topic in subs then Showing else Acquiring, failed);
            case Acquiring =>
              var ok := hub.Acquire(topic);
              handler := if ok then Subscribing(todo, Inserting, failed) else Subscribing(todo[1..], Checking, true);
            case Inserting =>
              subs := subs + {topic};
              handler := Subscribing(todo, Showing, failed);
            case Showing =>
              var data := hub.Snapshot(topic);
              if data.Some? {
                var _ := out.Send(EventLine(Event(topic, data.value)));
              }
              handler := Subscribing(todo[1..], Checking, failed);
          }
        case Unsubscribing(todo, releasing) =>
          if todo == [] {
            var _ := out.Send(ReplyLine(true));
            handler := Reading;
            return;
          }
          var topic := todo[0];
          if releasing {
            hub.Release(topic);
            handler := Unsubscribing(todo[1..], false);
          } else if topic in subs {
            subs := subs - {topic};
            handler := Unsubscribing(todo, true);
          } else {
            handler := Unsubscribing(todo[1..], false);
          }
      }
    }

    /** A whole request with no other task in between: it ends, with exactly the
        subscriptions it asks for. */
    method HandleRequest(request: Request)
      requires handler.Reading?
      modifies this, out, hub
      ensures handler.Reading?
      ensures subs == RequestEffect(hub.modules, old(subs), request)
      ensures old(subs) <= hub.modules && !out.closed ==>
                Replies(out.View()) == old(Replies(out.View())) + [Verdict(hub.modules, request)]
      ensures request.Subscribe? && !out.closed ==>
                forall t | t in request.topics && t in hub.modules && t in hub.snapshots ::
                  t in Seen(out.View()) && Seen(out.View())[t] == hub.snapshots[t]
    {
      ghost var verdict := Verdict(hub.modules, request);
      if request.Other? {
        RepliesSent(out.View(), ReplyLine(request.ok));
      }
      Start(request);
      while handler.Subscribing? || handler.Unsubscribing?
        invariant Handling(View()) || handler.Reading?
        invariant HandlerSane(hub.modules, View())
        invariant Goal(hub.modules, View()) == RequestEffect(hub.modules, old(subs), request)
        invariant old(subs) <= hub.modules ==> subs <= hub.modules
        invariant old(subs) <= hub.modules && !out.closed ==>
                    if Handling(View()) then
                      Replies(out.View()) == old(Replies(out.View())) && Outlook(hub.modules, handler) == verdict
                    else Replies(out.View()) == old(Replies(out.View())) + [verdict]
        invariant if request.Subscribe? then !handler.Unsubscribing? else !handler.Subscribing?
        invariant handler.Subscribing? && !out.closed ==> ShownSoFar(hub.View(), View(), request.topics)
        invariant request.Subscribe? && handler.Reading? && !out.closed ==> Shown(hub.View(), out.View(), request.topics)
        decreases StepsLeft(handler)
      {
        HandleProgress(hub.View(), View());
        if old(subs) <= hub.modules {
          HandleReplies(hub.View(), View());
        }
        if handler.Subscribing? && !out.closed {
          HandleShows(hub.View(), View(), request.topics);
        }
        Handle();
      }
    }

    method Forward(pick: Topic)
      requires cursor <= |hub.log| && CanForward(View(), pick)
      modifies this, out
      ensures View() == ForwardStep(hub.View(), old(View()), pick)
    {
      match forwarder {
        case Idle =>
          var (received, next) := Receive(hub.log, cursor);
          cursor := next;
          match received {
            case Nothing =>
            case Got(e) => forwarder := Holding(e);
            case Lag(_) => forwarder := Lagged;
          }
        case Holding(e) =>
          forwarder := Idle;
          if e.topic in subs {
            var ok := out.Send(EventLine(e));
            if !ok {
              forwarder := Stopped;
            }
          }
        case Lagged =>
          forwarder := Resending(subs);
        case Resending(topics) =>
          if topics == {} {
            forwarder := Idle;
            return;
          }
          forwarder := Resending(topics - {pick});
          var data := hub.Snapshot(pick);
          if data.Some? {
            var ok := out.Send(EventLine(Event(pick, data.value)));
            if !ok {
              forwarder := Stopped;
            }
          }
      }
    }

    /** The forwarder left to itself: it reads everything and then waits, unless sending
        fails. */
    method ForwardAll()
      requires cursor <= |hub.log| && !handler.Cleaning?
      modifies this, out
      ensures forwarder.Stopped? || Quiet(hub.View(), View())
      ensures subs == old(subs) && handler == old(handler) && hub.View() == old(hub.View())
    {
      while !forwarder.Stopped? && !(forwarder.Idle? && cursor == |hub.log|)
        invariant cursor <= |hub.log| && hub.View() == old(hub.View())
        invariant subs == old(subs) && handler == old(handler)
        decreases |hub.log| - cursor, InHand(View())
      {
        var pick := Topic("");
        if forwarder.Resending? && forwarder.topics != {} {
          pick :| pick in forwarder.topics;
        }
        ForwardProgress(hub.View(), View(), pick);
        Forward(pick);
      }
    }
  }
}
