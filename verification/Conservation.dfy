/** Reference counts under interleaving: the hub's count of a topic is at every
    moment the number of connections that hold it, so a loop runs exactly while
    somebody wants it and no release is ever lost or doubled. */
module Conservation {
  import opened Basics
  import opened HubModel
  import opened ServerModel
  import opened Daemon

  /** A connection owes one release of the topic: it is subscribed, it is between
      acquire and insert, between remove and release, or still cleaning up. */
  predicate Holds(c: Client, topic: Topic) {
    match c.handler
    case Reading => topic in c.subs
    case Subscribing(todo, stage, _) => topic in c.subs || (stage.Inserting? && todo != [] && todo[0] == topic)
    case Unsubscribing(todo, releasing) => topic in c.subs || (releasing && todo != [] && todo[0] == topic)
    case Cleaning(left) => topic in left
    case Draining => false
  }

  function Holders(clients: map<nat, Client>, topic: Topic): set<nat> {
    set id | id in clients && Holds(clients[id], topic)
  }

  function One(b: bool): nat {
    if b then 1 else 0
  }

  /** The pending acquire or release of a handler is not also in `subs`, and only
      known topics are ever held. */
  predicate Settled(h: HubState, c: Client) {
    && c.subs <= h.modules
    && (match c.handler
        case Reading => true
        case Subscribing(todo, stage, _) =>
          && (todo != [] && (stage.Acquiring? || stage.Inserting?) ==> todo[0] !in c.subs)
          && (todo != [] && stage.Inserting? ==> todo[0] in h.modules)
        case Unsubscribing(todo, releasing) =>
          releasing ==> todo != [] && todo[0] !in c.subs && todo[0] in h.modules
        case Cleaning(left) => left <= c.subs
        case Draining => true)
  }

  /** A loop exists exactly while its topic is wanted, and it is the only loop of the
      topic that was not aborted. */
  ghost predicate LoopsAgree(h: HubState) {
    && (forall t | t in h.runtimes :: h.runtimes[t].subscribers > 0 <==> h.runtimes[t].task.Some?)
    && (forall t | t in h.runtimes && h.runtimes[t].task.Some? ::
          var task := h.runtimes[t].task.value;
          task < |h.tasks| && h.tasks[task] == t && task !in h.aborted)
    && (forall task | 0 <= task < |h.tasks| && task !in h.aborted ::
          h.tasks[task] in h.runtimes && h.runtimes[h.tasks[task]].task == Some(task))
    && (forall task | task in h.aborted :: task < |h.tasks|)
  }

  ghost predicate Conserved(alwaysOn: seq<Topic>, s: System) {
    forall t :: RuntimeOf(s.hub, t).subscribers == |Holders(s.clients, t)| + One(t in alwaysOn)
  }

  ghost predicate Inv(alwaysOn: seq<Topic>, s: System) {
    && (forall id | id in s.clients :: Settled(s.hub, s.clients[id]))
    && LoopsAgree(s.hub)
    && Conserved(alwaysOn, s)
  }

  // -- the hub -----------------------------------------------------------------

  lemma AcquireCounts(h: HubState, topic: Topic)
    requires LoopsAgree(h) && topic in h.modules
    ensures var k := AcquireState(h, topic);
            && LoopsAgree(k) && k.modules == h.modules
            && forall t :: RuntimeOf(k, t).subscribers == RuntimeOf(h, t).subscribers + One(t == topic)
  {
  }

  lemma ReleaseCounts(h: HubState, topic: Topic)
    requires LoopsAgree(h) && topic in h.modules
    requires RuntimeOf(h, topic).subscribers > 0
    ensures var k := ReleaseState(h, topic);
            && LoopsAgree(k) && k.modules == h.modules
            && forall t :: RuntimeOf(k, t).subscribers == RuntimeOf(h, t).subscribers - One(t == topic)
  {
  }

  // -- counting holders --------------------------------------------------------

  lemma HoldersUpdate(clients: map<nat, Client>, id: nat, c: Client, topic: Topic)
    ensures var before := id in clients && Holds(clients[id], topic);
            |Holders(clients[id := c], topic)| + One(before) == |Holders(clients, topic)| + One(Holds(c, topic))
  {
    var was := Holders(clients, topic);
    var now := Holders(clients[id := c], topic);
    assert forall other | other != id :: other in was <==> other in now;
    assert was - {id} == now - {id};
    CountWithout(was, id);
    CountWithout(now, id);
  }

  lemma CountWithout(ids: set<nat>, id: nat)
    ensures |ids| == |ids - {id}| + One(id in ids)
  {
    if id in ids {
      assert ids == (ids - {id}) + {id};
    } else {
      assert ids == ids - {id};
    }
  }

  lemma HoldersRemove(clients: map<nat, Client>, id: nat, topic: Topic)
    requires id in clients && !Holds(clients[id], topic)
    ensures Holders(clients - {id}, topic) == Holders(clients, topic)
  {
  }

  /** A connection that holds the topic is counted: its release does not saturate. */
  lemma HeldIsCounted(alwaysOn: seq<Topic>, s: System, id: nat, topic: Topic)
    requires Conserved(alwaysOn, s) && id in s.clients && Holds(s.clients[id], topic)
    ensures RuntimeOf(s.hub, topic).subscribers > 0
  {
    assert id in Holders(s.clients, topic);
  }

  // -- steps -------------------------------------------------------------------

  /** The step does an acquire, a release, or leaves the counts alone. */
  datatype Effect = Acquires(topic: Topic) | Releases(topic: Topic) | Neither

  function EffectOf(s: System, step: Step): Effect
    requires Enabled(s, step)
  {
    match step
    case Handle(id) =>
      (match s.clients[id].handler
       case Subscribing(todo, stage, _) =>
         if todo != [] && stage.Acquiring? && todo[0] in s.hub.modules then Acquires(todo[0]) else Neither
       case Unsubscribing(todo, releasing) =>
         if todo != [] && releasing then Releases(todo[0]) else Neither
       case _ => Neither)
    case CleanUp(_, topic) => Releases(topic)
    case _ => Neither
  }

  lemma ReleaseIsOwed(alwaysOn: seq<Topic>, s: System, step: Step)
    requires Inv(alwaysOn, s) && Enabled(s, step) && EffectOf(s, step).Releases?
    ensures var topic := EffectOf(s, step).topic;
            && topic in s.hub.modules
            && Holds(s.clients[step.id], topic)
            && RuntimeOf(s.hub, topic).subscribers > 0
  {
    assert Settled(s.hub, s.clients[step.id]);
    HeldIsCounted(alwaysOn, s, step.id, EffectOf(s, step).topic);
  }

  /** The hub after a step, by its effect. */
  lemma EffectOnHub(s: System, step: Step)
    requires Enabled(s, step)
    ensures var h := Apply(s, step).hub;
            match EffectOf(s, step)
            case Acquires(t) => t in s.hub.modules && h == AcquireState(s.hub, t)
            case Releases(t) => h == ReleaseState(s.hub, t)
            case Neither => h.runtimes == s.hub.runtimes && h.tasks == s.hub.tasks && h.aborted == s.hub.aborted
                            && h.modules == s.hub.modules
  {
  }

  /** The owner of a step after it: still settled, holding one topic more or less. */
  lemma EffectOnOwner(s: System, step: Step)
    requires Enabled(s, step) && Owner(step).Some? && !step.Finish? && !step.Connect?
    requires Settled(s.hub, s.clients[step.id])
    ensures step.id in Apply(s, step).clients
    ensures var c, d := s.clients[step.id], Apply(s, step).clients[step.id];
            && Settled(s.hub, d)
            && match EffectOf(s, step)
               case Acquires(t) => forall u :: Holds(d, u) <==> Holds(c, u) || u == t
               case Releases(t) => forall u :: Holds(d, u) <==> Holds(c, u) && u != t
               case Neither => forall u :: Holds(d, u) <==> Holds(c, u)
    ensures EffectOf(s, step).Acquires? ==> !Holds(s.clients[step.id], EffectOf(s, step).topic)
  {
  }

  lemma OwnerFrame(s: System, step: Step)
    requires Enabled(s, step) && Owner(step).Some? && !step.Finish?
    ensures var n := Apply(s, step);
            step.id in n.clients && n.clients == s.clients[step.id := n.clients[step.id]]
  {
  }

  lemma StepKeepsLoops(alwaysOn: seq<Topic>, s: System, step: Step)
    requires Inv(alwaysOn, s) && Enabled(s, step)
    ensures var h, k := s.hub, Apply(s, step).hub;
            && LoopsAgree(k) && k.modules == h.modules
            && forall t :: RuntimeOf(k, t).subscribers ==
                 match EffectOf(s, step)
                 case Acquires(u) => RuntimeOf(h, t).subscribers + One(t == u)
                 case Releases(u) => RuntimeOf(h, t).subscribers - One(t == u)
                 case Neither => RuntimeOf(h, t).subscribers
  {
    EffectOnHub(s, step);
    match EffectOf(s, step)
    case Acquires(t) => AcquireCounts(s.hub, t);
    case Releases(t) =>
      ReleaseIsOwed(alwaysOn, s, step);
      ReleaseCounts(s.hub, t);
    case Neither =>
      var h, k := s.hub, Apply(s, step).hub;
      assert forall t :: RuntimeOf(k, t) == RuntimeOf(h, t);
  }

  lemma StepKeepsSettled(alwaysOn: seq<Topic>, s: System, step: Step)
    requires Inv(alwaysOn, s) && Enabled(s, step)
    ensures var n := Apply(s, step); forall id | id in n.clients :: Settled(n.hub, n.clients[id])
  {
    StepKeepsLoops(alwaysOn, s, step);
    hide LoopsAgree, Conserved;
    if Owner(step).Some? && !step.Finish? {
      OwnerFrame(s, step);
      if !step.Connect? {
        EffectOnOwner(s, step);
      }
      hide Apply;
      SettledByModules(s.hub, Apply(s, step).hub);
    }
  }

  lemma SettledByModules(h: HubState, k: HubState)
    requires h.modules == k.modules
    ensures forall c :: Settled(h, c) <==> Settled(k, c)
  {
  }

  lemma StepKeepsCounts(alwaysOn: seq<Topic>, s: System, step: Step)
    requires Inv(alwaysOn, s) && Enabled(s, step) && Owner(step).Some? && !step.Finish?
    ensures Conserved(alwaysOn, Apply(s, step))
  {
    var n := Apply(s, step);
    StepKeepsLoops(alwaysOn, s, step);
    OwnerFrame(s, step);
    if !step.Connect? {
      EffectOnOwner(s, step);
      if EffectOf(s, step).Releases? {
        ReleaseIsOwed(alwaysOn, s, step);
      }
    }
    hide LoopsAgree, Settled, RuntimeOf;
    forall t ensures RuntimeOf(n.hub, t).subscribers == |Holders(n.clients, t)| + One(t in alwaysOn) {
      HoldersUpdate(s.clients, step.id, n.clients[step.id], t);
    }
  }

  lemma StepInv(alwaysOn: seq<Topic>, s: System, step: Step)
    requires Inv(alwaysOn, s) && Enabled(s, step)
    ensures Inv(alwaysOn, Apply(s, step))
  {
    var n := Apply(s, step);
    StepKeepsLoops(alwaysOn, s, step);
    StepKeepsSettled(alwaysOn, s, step);
    hide LoopsAgree, Settled;
    if Owner(step).None? {
      assert n.clients == s.clients;
    } else if step.Finish? {
      forall t ensures |Holders(n.clients, t)| == |Holders(s.clients, t)| {
        HoldersRemove(s.clients, step.id, t);
      }
    } else {
      StepKeepsCounts(alwaysOn, s, step);
    }
  }

  lemma {:induction false} RunInv(alwaysOn: seq<Topic>, s: System, steps: seq<Step>, end: System)
    requires Inv(alwaysOn, s) && Run(s, steps, end)
    ensures Inv(alwaysOn, end)
    decreases |steps|
  {
    if steps != [] {
      StepInv(alwaysOn, s, steps[0]);
      RunInv(alwaysOn, Apply(s, steps[0]), steps[1..], end);
    }
  }

  lemma {:induction false} BootInv(modules: set<Topic>, alwaysOn: seq<Topic>)
    requires BootOrder(modules, alwaysOn)
    ensures Inv(alwaysOn, Boot(modules, alwaysOn))
  {
    var s := Boot(modules, alwaysOn);
    if alwaysOn != [] {
      var n := |alwaysOn| - 1;
      var before := alwaysOn[..n];
      BootInv(modules, before);
      var prior := Boot(modules, before);
      AcquireCounts(prior.hub, alwaysOn[n]);
      forall t ensures RuntimeOf(s.hub, t).subscribers == |Holders(s.clients, t)| + One(t in alwaysOn) {
        assert RuntimeOf(prior.hub, t).subscribers == |Holders(prior.clients, t)| + One(t in before);
        assert alwaysOn == before + [alwaysOn[n]];
        assert alwaysOn[n] !in before;
      }
    }
  }

  lemma {:induction false} ReachableInv(modules: set<Topic>, alwaysOn: seq<Topic>, s: System)
    requires BootOrder(modules, alwaysOn) && Reachable(modules, alwaysOn, s)
    ensures Inv(alwaysOn, s)
  {
    BootInv(modules, alwaysOn);
    var steps :| Run(Boot(modules, alwaysOn), steps, s);
    RunInv(alwaysOn, Boot(modules, alwaysOn), steps, s);
  }

  // -- main results ------------------------------------------------------------

  lemma SubscribersConserved(modules: set<Topic>, alwaysOn: seq<Topic>, s: System, topic: Topic)
    requires BootOrder(modules, alwaysOn) && Reachable(modules, alwaysOn, s)
    ensures RuntimeOf(s.hub, topic).subscribers == |Holders(s.clients, topic)| + One(topic in alwaysOn)
  {
    ReachableInv(modules, alwaysOn, s);
  }

  function LiveLoops(h: HubState, topic: Topic): set<nat> {
    set task | 0 <= task < |h.tasks| && task !in h.aborted && h.tasks[task] == topic
  }

  /** One loop runs for a topic that somebody holds or that is always on, none for
      any other topic. */
  lemma LoopRunsIffWanted(modules: set<Topic>, alwaysOn: seq<Topic>, s: System, topic: Topic)
    requires BootOrder(modules, alwaysOn) && Reachable(modules, alwaysOn, s)
    ensures |LiveLoops(s.hub, topic)| == One(Holders(s.clients, topic) != {} || topic in alwaysOn)
  {
    ReachableInv(modules, alwaysOn, s);
    assert RuntimeOf(s.hub, topic).subscribers == |Holders(s.clients, topic)| + One(topic in alwaysOn);
    var live := LiveLoops(s.hub, topic);
    if topic in s.hub.runtimes && s.hub.runtimes[topic].task.Some? {
      assert live == {s.hub.runtimes[topic].task.value};
    } else {
      assert live == {};
    }
  }

  /** No release of the daemon meets a zero count. */
  lemma NeverSaturates(modules: set<Topic>, alwaysOn: seq<Topic>, s: System, step: Step)
    requires BootOrder(modules, alwaysOn) && Reachable(modules, alwaysOn, s)
    requires Enabled(s, step) && EffectOf(s, step).Releases?
    ensures RuntimeOf(s.hub, EffectOf(s, step).topic).subscribers > 0
  {
    ReachableInv(modules, alwaysOn, s);
    ReleaseIsOwed(alwaysOn, s, step);
  }
}
