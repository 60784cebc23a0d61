/** The shell's client of the daemon (`core/Backend.qml`): calls with callbacks that
    may themselves call, time out or meet a disconnect, and subscriptions that
    survive reconnects.

    The engine is single threaded but re-entrant: while a callback runs, the loop
    that invoked it is suspended. `frames` is that stack, innermost last. */
module BackendModel {
  import opened Basics
  import opened HubModel
  import opened ServerModel

  datatype Frame =
    | InCallback                       // a callback of the shell runs
    | Detached(waiting: set<nat>)      // _onDisconnected goes through the old table
    | Sweeping(expired: seq<nat>)      // the sweep timer goes through the expired calls

  /** `issued` and `answered` are history: the calls that had a callback, and how often
      each callback was invoked. `wire` are the lines in flight on the connection and
      `served` the subscriptions the daemon has for it. */
  datatype State = State(
    pending: set<nat>,
    deadlines: map<nat, int>,
    nextId: nat,
    sweepRunning: bool,
    connected: bool,
    refcounts: map<Topic, int>,
    frames: seq<Frame>,
    issued: set<nat>,
    answered: multiset<nat>,
    wire: seq<Request>,
    served: set<Topic>)

  datatype Step =
    | Call(callback: bool, deadline: int)
    | Return                                       // the running callback ends
    | Continue(pick: nat)                          // the suspended loop goes on
    | Reply(id: nat)
    | Sweep(now: int, expired: seq<nat>)
    | Connect(active: seq<Topic>)
    | Disconnect
    | SubscribeTo(topic: Topic)
    | UnsubscribeFrom(topic: Topic)
    | Serve                                        // the daemon handles one line

  function Initial(): State {
    State({}, map[], 1, false, false, map[], [], {}, multiset{}, [], {})
  }

  function RefCount(s: State, topic: Topic): int {
    if topic in s.refcounts then s.refcounts[topic] else 0
  }

  function Wanted(s: State): set<Topic> {
    set t | t in s.refcounts && s.refcounts[t] > 0
  }

  function Due(s: State, now: int): set<nat> {
    set id | id in s.deadlines && s.deadlines[id] <= now
  }

  /** Code of the shell may run: nothing is suspended, or a callback is on top. */
  predicate ShellRuns(s: State) {
    s.frames == [] || s.frames[|s.frames| - 1].InCallback?
  }

  predicate Lists<T(==)>(items: seq<T>, all: set<T>) {
    && (forall x | x in items :: x in all)
    && (forall x | x in all :: x in items)
    && (forall i, j | 0 <= i < j < |items| :: items[i] != items[j])
  }

  /** Events may come in whenever code of the shell runs: a write can fail inside it. */
  predicate Enabled(s: State, step: Step) {
    match step
    case Return => s.frames != [] && s.frames[|s.frames| - 1].InCallback?
    case Continue(pick) =>
      s.frames != [] &&
      (match s.frames[|s.frames| - 1]
       case InCallback => false
       case Detached(waiting) => waiting == {} || pick in waiting
       case Sweeping(_) => true)
    case Sweep(now, expired) => ShellRuns(s) && s.sweepRunning && Lists(expired, Due(s, now))
    case Connect(active) => ShellRuns(s) && !s.connected && Lists(active, Wanted(s))
    case Serve => s.connected && s.wire != []
    case _ => ShellRuns(s)
  }

  /** The callback of a call is taken out of the tables and invoked. */
  function Answer(s: State, id: nat): State {
    s.(pending := s.pending - {id}, deadlines := s.deadlines - {id},
       answered := s.answered + multiset{id}, frames := s.frames + [InCallback])
  }

  function Send(s: State, line: Request): State {
    if s.connected then s.(wire := s.wire + [line]) else s
  }

  function Top(s: State, frame: Frame): State
    requires s.frames != []
  {
    s.(frames := s.frames[..|s.frames| - 1] + [frame])
  }

  function Pop(s: State): State
    requires s.frames != []
  {
    s.(frames := s.frames[..|s.frames| - 1])
  }

  function StartCall(s: State, callback: bool, deadline: int): State {
    var id := s.nextId;
    var called := s.(nextId := id + 1);
    if callback then
      var waiting := called.(pending := s.pending + {id}, deadlines := s.deadlines[id := deadline],
                             sweepRunning := true, issued := s.issued + {id});
      if s.connected then Send(waiting, Other(true)) else Answer(waiting, id)
    else Send(called, Other(true))
  }

  /** What became of a call: waiting with its deadline, answered at once, or on its own. */
  predicate Called(s: State, n: State, callback: bool, deadline: int) {
    var id := s.nextId;
    && n.nextId == id + 1 && n.issued == s.issued + (if callback then {id} else {})
    && n.connected == s.connected && n.refcounts == s.refcounts && n.served == s.served
    && n.wire == (if s.connected then s.wire + [Other(true)] else s.wire)
    && (if callback && s.connected then
          && n.pending == s.pending + {id} && n.deadlines == s.deadlines[id := deadline] && n.sweepRunning
        else n.pending == s.pending && n.deadlines == s.deadlines)
    && (if callback && !s.connected then
          n.answered == s.answered + multiset{id} && n.frames == s.frames + [InCallback]
        else n.answered == s.answered && n.frames == s.frames)
  }

  /** The tables as a call enters them, before its line is sent. */
  function Entered(s: State, callback: bool, deadline: int): State {
    var called := s.(nextId := s.nextId + 1);
    if callback then
      called.(pending := s.pending + {s.nextId}, deadlines := s.deadlines[s.nextId := deadline],
              sweepRunning := true, issued := s.issued + {s.nextId})
    else called
  }

  lemma CallInSteps(s: State, callback: bool, deadline: int)
    ensures var sent := Send(Entered(s, callback, deadline), Other(true));
            StartCall(s, callback, deadline) == if callback && !s.connected then Answer(sent, s.nextId) else sent
    ensures Entered(s, callback, deadline).connected == s.connected
  {
  }

  lemma CallEffect(s: State, callback: bool, deadline: int)
    requires s.nextId !in s.pending && s.nextId !in s.deadlines
    ensures Called(s, StartCall(s, callback, deadline), callback, deadline)
  {
    var id := s.nextId;
    assert s.pending + {id} - {id} == s.pending;
    assert s.deadlines[id := deadline] - {id} == s.deadlines;
  }

  function Apply(modules: set<Topic>, s: State, step: Step): State
    requires Enabled(s, step)
  {
    match step
    case Call(callback, deadline) => StartCall(s, callback, deadline)
    case Return => Pop(s)
    case Continue(pick) =>
      (match s.frames[|s.frames| - 1]
       case Detached(waiting) =>
         if waiting == {} then Pop(s)
         else
           var next := Top(s, Detached(waiting - {pick}));
           next.(answered := s.answered + multiset{pick}, frames := next.frames + [InCallback])
       case Sweeping(expired) =>
         if expired == [] then Pop(s)
         else
           var next := Top(s, Sweeping(expired[1..]));
           if expired[0] in s.pending then Answer(next, expired[0]) else next)
    case Reply(id) => if id in s.pending then Answer(s, id) else s
    case Sweep(now, expired) =>
      s.(sweepRunning := exists id :: id in s.deadlines && s.deadlines[id] > now,
         frames := s.frames + [Sweeping(expired)])
    case Connect(active) =>
      s.(connected := true, wire := if active == [] then [] else [Subscribe(active)], served := {})
    case Disconnect =>
      s.(connected := false, wire := [], served := {}, pending := {}, deadlines := map[],
         frames := s.frames + [Detached(s.pending)])
    case SubscribeTo(topic) =>
      var count := RefCount(s, topic);
      var next := s.(refcounts := s.refcounts[topic := count + 1]);
      if count == 0 then Send(next, Subscribe([topic])) else next
    case UnsubscribeFrom(topic) =>
      var count := RefCount(s, topic);
      if count <= 0 then s
      else
        var next := s.(refcounts := s.refcounts[topic := count - 1]);
        if count == 1 then Send(next, Unsubscribe([topic])) else next
    case Serve => s.(wire := s.wire[1..], served := RequestEffect(modules, s.served, s.wire[0]))
  }

  predicate Run(modules: set<Topic>, s: State, steps: seq<Step>, end: State)
    decreases |steps|
  {
    if steps == [] then s == end
    else Enabled(s, steps[0]) && Run(modules, Apply(modules, s, steps[0]), steps[1..], end)
  }

  ghost predicate Reachable(modules: set<Topic>, s: State) {
    exists steps :: Run(modules, Initial(), steps, s)
  }

  lemma ListsAppend<T>(items: seq<T>, all: set<T>, x: T)
    requires Lists(items, all) && x !in all
    ensures Lists(items + [x], all + {x})
  {
  }

  const CALL_TIMEOUT: int := 60000

  /** The QML item itself. `frames` stands for the engine's call stack; the rest of the
      ghost state is the connection's other end and the history. */
  class Backend {
    var pending: set<nat>
    var deadlines: map<nat, int>
    var nextId: nat
    var sweepRunning: bool
    var connected: bool
    var refcounts: map<Topic, int>
    var frames: seq<Frame>
    ghost var issued: set<nat>
    ghost var answered: multiset<nat>
    ghost var wire: seq<Request>
    ghost var served: set<Topic>

    ghost function View(): State
      reads this
    {
      State(pending, deadlines, nextId, sweepRunning, connected, refcounts, frames, issued, answered, wire, served)
    }

    constructor ()
      ensures View() == Initial()
    {
      pending, deadlines, nextId, sweepRunning, connected := {}, map[], 1, false, false;
      refcounts, frames := map[], [];
      issued, answered, wire, served := {}, multiset{}, [], {};
    }

    /** Hands a line to the socket, if there is a connection. */
    method SendLine(line: Request) returns (ok: bool)
      modifies this`wire
      ensures ok == connected
      ensures View() == Send(old(View()), line)
    {
      ok := connected;
      if ok {
        wire := wire + [line];
      }
    }

    /** Takes a call out of the tables and invokes its callback. */
    method Invoke(id: nat)
      modifies this`pending, this`deadlines, this`answered, this`frames
      ensures View() == Answer(old(View()), id)
    {
      pending := pending - {id};
      deadlines := deadlines - {id};
      answered := answered + multiset{id};
      frames := frames + [InCallback];
    }

    method Call(callback: bool, now: int, timeoutMs: int) returns (id: nat)
      requires ShellRuns(View()) && nextId !in pending && nextId !in deadlines
      modifies this
      ensures View() == StartCall(old(View()), callback, now + if timeoutMs > 0 then timeoutMs else CALL_TIMEOUT)
      ensures id == old(nextId)
      ensures Called(old(View()), View(), callback, now + if timeoutMs > 0 then timeoutMs else 60_000)
    {
      hide Called, Answer, Send, StartCall;
      ghost var deadline := now + if timeoutMs > 0 then timeoutMs else CALL_TIMEOUT;
      CallInSteps(View(), callback, deadline);
      CallEffect(View(), callback, deadline);
      id := nextId;
      nextId := nextId + 1;
      if callback {
        pending := pending + {id};
        deadlines := deadlines[id := now + if timeoutMs > 0 then timeoutMs else CALL_TIMEOUT];
        sweepRunning := true;
        issued := issued + {id};
      }
      assert View() == Entered(old(View()), callback, deadline);
      var sent := SendLine(Other(true));
      if !sent && callback {
        Invoke(id);
      }
    }

    method OnReply(id: nat)
      requires ShellRuns(View())
      modifies this
      ensures forall modules :: View() == Apply(modules, old(View()), Reply(id))
      ensures id !in old(pending) ==> View() == old(View())
      ensures id in old(pending) ==>
                && pending == old(pending) - {id} && deadlines == old(deadlines) - {id}
                && answered == old(answered) + multiset{id} && frames == old(frames) + [InCallback]
      ensures nextId == old(nextId) && sweepRunning == old(sweepRunning) && connected == old(connected)
      ensures refcounts == old(refcounts) && issued == old(issued) && wire == old(wire) && served == old(served)
    {
      if id in pending {
        Invoke(id);
      }
    }

    /** The suspended loop on top of the stack goes on. */
    method Resume(pick: nat)
      requires Enabled(View(), Continue(pick))
      modifies this
      ensures forall modules :: View() == Apply(modules, old(View()), Continue(pick))
      ensures var below, top := old(frames)[..|old(frames)| - 1], old(frames)[|old(frames)| - 1];
              match top
              case Detached(waiting) =>
                pending == old(pending) && deadlines == old(deadlines) &&
                if waiting == {} then frames == below && answered == old(answered)
                else frames == below + [Detached(waiting - {pick}), InCallback] && answered == old(answered) + multiset{pick}
              case Sweeping(expired) =>
                if expired != [] && expired[0] in old(pending) then
                  && pending == old(pending) - {expired[0]} && deadlines == old(deadlines) - {expired[0]}
                  && answered == old(answered) + multiset{expired[0]}
                  && frames == below + [Sweeping(expired[1..]), InCallback]
                else
                  && pending == old(pending) && deadlines == old(deadlines) && answered == old(answered)
                  && frames == if expired == [] then below else below + [Sweeping(expired[1..])]
              case InCallback => false
    {
      var below := frames[..|frames| - 1];
      match frames[|frames| - 1] {
        case Detached(waiting) =>
          if waiting == {} {
            frames := below;
          } else {
            frames := below + [Detached(waiting - {pick})] + [InCallback];
            answered := answered + multiset{pick};
          }
        case Sweeping(expired) =>
          if expired == [] {
            frames := below;
          } else {
            frames := below + [Sweeping(expired[1..])];
            if expired[0] in pending {
              Invoke(expired[0]);
            }
          }
      }
    }

    /** The sweep timer: collects the expired calls first, then answers them. */
    method OnSweep(now: int) returns (expired: seq<nat>)
      requires ShellRuns(View()) && sweepRunning
      modifies this
      ensures Enabled(old(View()), Sweep(now, expired))
      ensures forall modules :: View() == Apply(modules, old(View()), Sweep(now, expired))
      ensures forall id :: id in expired <==> id in deadlines && deadlines[id] <= now
      ensures sweepRunning <==> exists id :: id in deadlines && deadlines[id] > now
      ensures frames == old(frames) + [Sweeping(expired)]
      ensures pending == old(pending) && deadlines == old(deadlines) && answered == old(answered)
    {
      expired := [];
      ghost var due := Due(View(), now);
      var waiting := false;
      var left := deadlines.Keys;
      while left != {}
        invariant View() == old(View()) && left <= deadlines.Keys
        invariant Lists(expired, due - left)
        invariant waiting <==> exists id :: id in deadlines.Keys - left && deadlines[id] > now
        decreases left
      {
        var id :| id in left;
        ghost var done := deadlines.Keys - left;
        ghost var listed := due - left;
        left := left - {id};
        assert deadlines.Keys - left == done + {id};
        if deadlines[id] <= now {
          assert due - left == listed + {id};
          ListsAppend(expired, listed, id);
          expired := expired + [id];
        } else {
          assert due - left == listed;
          waiting := true;
        }
      }
      assert due - left == due;
      assert waiting <==> exists id :: id in deadlines && deadlines[id] > now by {
        assert deadlines.Keys - left == deadlines.Keys;
      }
      if !waiting {
        sweepRunning := false;
      }
      frames := frames + [Sweeping(expired)];
    }

    method OnConnected() returns (active: seq<Topic>)
      requires ShellRuns(View()) && !connected
      modifies this
      ensures Enabled(old(View()), Connect(active))
      ensures forall modules :: View() == Apply(modules, old(View()), Connect(active))
      ensures connected && served == {} && wire == if active == [] then [] else [Request.Subscribe(active)]
      ensures forall topic :: topic in active <==> topic in refcounts && refcounts[topic] > 0
      ensures pending == old(pending) && deadlines == old(deadlines) && answered == old(answered)
      ensures refcounts == old(refcounts) && frames == old(frames)
    {
      active := [];
      ghost var wanted := Wanted(View());
      var left := refcounts.Keys;
      while left != {}
        invariant View() == old(View()) && left <= refcounts.Keys
        invariant Lists(active, wanted - left)
        decreases left
      {
        var topic :| topic in left;
        ghost var listed := wanted - left;
        left := left - {topic};
        if refcounts[topic] > 0 {
          assert wanted - left == listed + {topic};
          ListsAppend(active, listed, topic);
          active := active + [topic];
        } else {
          assert wanted - left == listed;
        }
      }
      assert wanted - left == wanted;
      connected, served := true, {};
      wire := if active == [] then [] else [Request.Subscribe(active)];
    }

    method OnDisconnected()
      requires ShellRuns(View())
      modifies this
      ensures forall modules :: View() == Apply(modules, old(View()), Disconnect)
      ensures pending == {} && deadlines == map[] && frames == old(frames) + [Detached(old(pending))]
      ensures !connected && wire == [] && served == {}
      ensures refcounts == old(refcounts) && nextId == old(nextId) && answered == old(answered)
    {
      frames := frames + [Detached(pending)];
      pending, deadlines := {}, map[];
      connected, wire, served := false, [], {};
    }

    method Subscribe(topic: Topic)
      requires ShellRuns(View())
      modifies this
      ensures forall modules :: View() == Apply(modules, old(View()), SubscribeTo(topic))
      ensures refcounts == old(refcounts)[topic := RefCount(old(View()), topic) + 1]
      ensures wire == if connected && RefCount(old(View()), topic) == 0 then old(wire) + [Request.Subscribe([topic])] else old(wire)
      ensures pending == old(pending) && deadlines == old(deadlines) && frames == old(frames) && answered == old(answered)
    {
      var count := if topic in refcounts then refcounts[topic] else 0;
      refcounts := refcounts[topic := count + 1];
      if count == 0 {
        var _ := SendLine(Request.Subscribe([topic]));
      }
    }

    method Unsubscribe(topic: Topic)
      requires ShellRuns(View())
      modifies this
      ensures forall modules :: View() == Apply(modules, old(View()), UnsubscribeFrom(topic))
      ensures var count := RefCount(old(View()), topic);
              && refcounts == (if count <= 0 then old(refcounts) else old(refcounts)[topic := count - 1])
              && wire == if connected && count == 1 then old(wire) + [Request.Unsubscribe([topic])] else old(wire)
      ensures pending == old(pending) && deadlines == old(deadlines) && frames == old(frames) && answered == old(answered)
    {
      var count := if topic in refcounts then refcounts[topic] else 0;
      if count <= 0 {
        return;
      }
      refcounts := refcounts[topic := count - 1];
      if count == 1 {
        var _ := SendLine(Request.Unsubscribe([topic]));
      }
    }
  }
}
