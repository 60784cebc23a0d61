/** Subscriptions survive reconnects. */
module Reconnect {
  import opened Basics
  import opened HubModel
  import opened ServerModel
  import opened BackendModel

  /** The daemon's subscriptions after it has handled all of `lines`. */
  function Handled(modules: set<Topic>, subs: set<Topic>, lines: seq<Request>): set<Topic>
    decreases |lines|
  {
    if lines == [] then subs else Handled(modules, RequestEffect(modules, subs, lines[0]), lines[1..])
  }

  ghost predicate Agrees(modules: set<Topic>, s: State) {
    && (forall t | t in s.refcounts :: s.refcounts[t] >= 0)
    && (s.connected ==> Handled(modules, s.served, s.wire) == Wanted(s) * modules)
  }

  lemma {:induction false} HandledAppend(modules: set<Topic>, subs: set<Topic>, lines: seq<Request>, line: Request)
    ensures Handled(modules, subs, lines + [line]) == RequestEffect(modules, Handled(modules, subs, lines), line)
    decreases |lines|
  {
    if lines == [] {
      assert lines + [line] == [line];
      assert [line][1..] == [];
    } else {
      assert (lines + [line])[1..] == lines[1..] + [line];
      HandledAppend(modules, RequestEffect(modules, subs, lines[0]), lines[1..], line);
    }
  }

  lemma SubscribeAgrees(modules: set<Topic>, s: State, topic: Topic)
    requires Agrees(modules, s) && ShellRuns(s)
    ensures Agrees(modules, Apply(modules, s, SubscribeTo(topic)))
  {
    var n := Apply(modules, s, SubscribeTo(topic));
    HandledAppend(modules, s.served, s.wire, Subscribe([topic]));
    assert Wanted(n) == Wanted(s) + {topic};
    assert Known(modules, [topic]) == {topic} * modules;
  }

  lemma UnsubscribeAgrees(modules: set<Topic>, s: State, topic: Topic)
    requires Agrees(modules, s) && ShellRuns(s)
    ensures Agrees(modules, Apply(modules, s, UnsubscribeFrom(topic)))
  {
    var n := Apply(modules, s, UnsubscribeFrom(topic));
    HandledAppend(modules, s.served, s.wire, Unsubscribe([topic]));
    assert Named([topic]) == {topic};
    if RefCount(s, topic) == 1 {
      assert Wanted(n) == Wanted(s) - {topic};
    } else {
      assert Wanted(n) == Wanted(s);
    }
  }

  lemma ConnectAgrees(modules: set<Topic>, s: State, active: seq<Topic>)
    requires Agrees(modules, s) && Enabled(s, Connect(active))
    ensures Agrees(modules, Apply(modules, s, Connect(active)))
  {
    var n := Apply(modules, s, Connect(active));
    assert Known(modules, active) == Wanted(s) * modules;
    if active != [] {
      assert n.wire[1..] == [];
      assert Handled(modules, n.served, n.wire) == RequestEffect(modules, {}, Subscribe(active));
    }
  }

  lemma StepAgrees(modules: set<Topic>, s: State, step: Step)
    requires Agrees(modules, s) && Enabled(s, step)
    ensures Agrees(modules, Apply(modules, s, step))
  {
    hide Agrees, Apply, KeepsWants;
    match step
    case Call(callback, deadline) => CallAgrees(modules, s, callback, deadline);
    case SubscribeTo(topic) => SubscribeAgrees(modules, s, topic);
    case UnsubscribeFrom(topic) => UnsubscribeAgrees(modules, s, topic);
    case Connect(active) => ConnectAgrees(modules, s, active);
    case Serve => ServeAgrees(modules, s);
    case _ =>
      OtherKeepsWants(modules, s, step);
      SameWantsAgree(modules, s, Apply(modules, s, step));
  }

  lemma CallAgrees(modules: set<Topic>, s: State, callback: bool, deadline: int)
    requires Agrees(modules, s) && ShellRuns(s)
    ensures Agrees(modules, Apply(modules, s, Call(callback, deadline)))
  {
    HandledAppend(modules, s.served, s.wire, Other(true));
    assert Wanted(StartCall(s, callback, deadline)) == Wanted(s);
  }

  lemma ServeAgrees(modules: set<Topic>, s: State)
    requires Agrees(modules, s) && s.connected && s.wire != []
    ensures Agrees(modules, Apply(modules, s, Serve))
  {
    assert Wanted(Apply(modules, s, Serve)) == Wanted(s);
  }

  ghost predicate KeepsWants(s: State, n: State) {
    && n.refcounts == s.refcounts
    && (n.connected ==> s.connected && n.served == s.served && n.wire == s.wire)
  }

  lemma ContinueKeepsWants(modules: set<Topic>, s: State, pick: nat)
    requires Enabled(s, Continue(pick))
    ensures KeepsWants(s, Apply(modules, s, Continue(pick)))
  {
    var top := s.frames[|s.frames| - 1];
    if top.Detached? {
      assert KeepsWants(s, Apply(modules, s, Continue(pick)));
    }
  }

  /** What only concerns calls changes neither what is wanted nor what is served. */
  lemma OtherKeepsWants(modules: set<Topic>, s: State, step: Step)
    requires Enabled(s, step)
    requires step.Return? || step.Continue? || step.Reply? || step.Sweep? || step.Disconnect?
    ensures KeepsWants(s, Apply(modules, s, step))
  {
    hide KeepsWants, Due, Lists;
    match step
    case Continue(pick) => ContinueKeepsWants(modules, s, pick);
    case Return => SameFields(s, Pop(s));
    case Reply(id) => SameFields(s, Apply(modules, s, Reply(id)));
    case Sweep(now, expired) => SameFields(s, Apply(modules, s, Sweep(now, expired)));
    case Disconnect => SameFields(s, Apply(modules, s, Disconnect));
  }

  lemma SameFields(s: State, n: State)
    requires n.refcounts == s.refcounts
    requires n.connected ==> s.connected && n.served == s.served && n.wire == s.wire
    ensures KeepsWants(s, n)
  {
  }

  lemma SameWantsAgree(modules: set<Topic>, s: State, n: State)
    requires Agrees(modules, s) && KeepsWants(s, n)
    ensures Agrees(modules, n)
  {
    assert Wanted(n) == Wanted(s);
  }

  lemma {:induction false} RunAgrees(modules: set<Topic>, s: State, steps: seq<Step>, end: State)
    requires Agrees(modules, s) && Run(modules, s, steps, end)
    ensures Agrees(modules, end)
    decreases |steps|
  {
    if steps != [] {
      StepAgrees(modules, s, steps[0]);
      RunAgrees(modules, Apply(modules, s, steps[0]), steps[1..], end);
    }
  }

  /** Once the lines in flight are handled, the daemon serves this connection exactly
      the known topics somebody in the shell still wants. */
  lemma ReconnectAgreement(modules: set<Topic>, s: State)
    requires Reachable(modules, s) && s.connected && s.wire == []
    ensures s.served == Wanted(s) * modules
  {
    var steps :| Run(modules, Initial(), steps, s);
    RunAgrees(modules, Initial(), steps, s);
  }
}
