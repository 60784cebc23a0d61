/** What a request does to a connection, seen from outside and under interleaving. */
module Requests {
  import opened Basics
  import opened HubModel
  import opened ServerModel
  import opened Daemon

  /** Steps that are not the start of another request or the end of the connection. */
  predicate Between(id: nat, step: Step) {
    Owner(step) == Some(id) ==> step.Handle? || step.Forward? || step.CallReply? || step.Write?
  }

  ghost predicate Serving(s: System, id: nat, goal: set<Topic>) {
    && id in s.clients
    && HandlerSane(s.hub.modules, s.clients[id])
    && Goal(s.hub.modules, s.clients[id]) == goal
  }

  lemma StepKeepsGoal(s: System, step: Step, id: nat, goal: set<Topic>)
    requires Serving(s, id, goal) && Enabled(s, step) && Between(id, step)
    ensures Serving(Apply(s, step), id, goal)
    ensures Apply(s, step).hub.modules == s.hub.modules
  {
    if Owner(step) == Some(id) && step.Handle? {
      HandleProgress(s.hub, s.clients[id]);
    }
  }

  lemma {:induction false} RunKeepsGoal(s: System, steps: seq<Step>, end: System, id: nat, goal: set<Topic>)
    requires Serving(s, id, goal) && Run(s, steps, end)
    requires forall step | step in steps :: Between(id, step)
    ensures Serving(end, id, goal)
    ensures end.hub.modules == s.hub.modules
    decreases |steps|
  {
    if steps != [] {
      StepKeepsGoal(s, steps[0], id, goal);
      RunKeepsGoal(Apply(s, steps[0]), steps[1..], end, id, goal);
    }
  }

  /** However the other tasks interleave, once the handler reads again the connection
      has exactly the subscriptions the request asked for. */
  lemma RequestCompletes(s: System, id: nat, request: ServerModel.Request, steps: seq<Step>, end: System)
    requires Enabled(s, Step.Request(id, request))
    requires Run(Apply(s, Step.Request(id, request)), steps, end)
    requires forall step | step in steps :: Between(id, step)
    ensures id in end.clients
    ensures end.clients[id].handler.Reading? ==>
              end.clients[id].subs == RequestEffect(s.hub.modules, s.clients[id].subs, request)
  {
    var goal := RequestEffect(s.hub.modules, s.clients[id].subs, request);
    RunKeepsGoal(Apply(s, Step.Request(id, request)), steps, end, id, goal);
  }
}
