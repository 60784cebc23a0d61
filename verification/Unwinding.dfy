/** The call stack of the QML client unwinds by itself, so that what is proved of moments
    outside every loop is reached from each moment; and what the counts of interest mean. */
module Unwinding {
  import opened HubModel
  import opened BackendModel
  import A = AnsweredOnce

  // -- the stack ---------------------------------------------------------------

  function FrameLeft(frame: Frame): nat {
    match frame
    case InCallback => 1
    case Detached(waiting) => 1 + 2 * |waiting|
    case Sweeping(expired) => 1 + 2 * |expired|
  }

  /** Steps until the stack is empty, if callbacks only return. */
  function StackLeft(frames: seq<Frame>): nat {
    if frames == [] then 0
    else StackLeft(frames[..|frames| - 1]) + FrameLeft(frames[|frames| - 1])
  }

  lemma StackAppend(frames: seq<Frame>, frame: Frame)
    ensures StackLeft(frames + [frame]) == StackLeft(frames) + FrameLeft(frame)
  {
    assert (frames + [frame])[..|frames|] == frames;
  }

  predicate Unwinds(step: Step) {
    step.Return? || step.Continue?
  }

  lemma CalledAgain(below: seq<Frame>, less: Frame)
    ensures StackLeft(below + [less] + [InCallback]) == StackLeft(below) + FrameLeft(less) + 1
  {
    StackAppend(below, less);
    StackAppend(below + [less], InCallback);
  }

  /** A disconnect loop and a sweep that go on leave less to do. */
  lemma LoopGoesOn(modules: set<Topic>, s: State, pick: nat)
    requires Enabled(s, Continue(pick))
    ensures StackLeft(Apply(modules, s, Continue(pick)).frames) < StackLeft(s.frames)
  {
    hide StackLeft;
    var below, top := s.frames[..|s.frames| - 1], s.frames[|s.frames| - 1];
    TopAndBelow(s.frames);
    match top
    case Detached(waiting) => CalledAgain(below, Detached(waiting - {pick}));
    case Sweeping(expired) =>
      if expired != [] {
        StackAppend(below, Sweeping(expired[1..]));
        CalledAgain(below, Sweeping(expired[1..]));
      }
  }

  lemma TopAndBelow(frames: seq<Frame>)
    requires frames != []
    ensures StackLeft(frames) == StackLeft(frames[..|frames| - 1]) + FrameLeft(frames[|frames| - 1])
  {
  }

  /** So does a callback that returns. */
  lemma UnwindStep(modules: set<Topic>, s: State, step: Step)
    requires Unwinds(step) && Enabled(s, step)
    ensures StackLeft(Apply(modules, s, step).frames) < StackLeft(s.frames)
  {
    hide StackLeft;
    TopAndBelow(s.frames);
    if step.Continue? {
      LoopGoesOn(modules, s, step.pick);
    }
  }

  lemma FirstStep(modules: set<Topic>, s: State, step: Step, rest: seq<Step>, end: State)
    requires Enabled(s, step) && Run(modules, Apply(modules, s, step), rest, end)
    ensures Run(modules, s, [step] + rest, end)
  {
    hide Apply, Enabled;
    assert ([step] + rest)[1..] == rest;
  }

  /** From every state the stack unwinds by its own steps: loops go on and callbacks return. */
  lemma {:induction false} StackUnwinds(modules: set<Topic>, s: State) returns (steps: seq<Step>, end: State)
    ensures Run(modules, s, steps, end) && end.frames == []
    ensures forall step | step in steps :: Unwinds(step)
    decreases StackLeft(s.frames)
  {
    hide Apply, StackLeft;
    if s.frames == [] {
      steps, end := [], s;
    } else {
      var top := s.frames[|s.frames| - 1];
      var step := Return;
      if !top.InCallback? {
        var pick: nat := 0;
        if top.Detached? && top.waiting != {} {
          pick :| pick in top.waiting;
        }
        step := Continue(pick);
      }
      UnwindStep(modules, s, step);
      var rest;
      rest, end := StackUnwinds(modules, Apply(modules, s, step));
      steps := [step] + rest;
      FirstStep(modules, s, step, rest, end);
    }
  }

  lemma {:induction false} RunConcat(modules: set<Topic>, a: State, first: seq<Step>, b: State, second: seq<Step>, c: State)
    requires Run(modules, a, first, b) && Run(modules, b, second, c)
    ensures Run(modules, a, first + second, c)
    decreases |first|
  {
    hide Apply, Enabled;
    if first == [] {
      assert first + second == second;
    } else {
      assert (first + second)[1..] == first[1..] + second;
      RunConcat(modules, Apply(modules, a, first[0]), first[1..], b, second, c);
    }
  }

  lemma {:induction false} ListOf(all: set<nat>) returns (items: seq<nat>)
    ensures Lists(items, all)
  {
    items := [];
    if all != {} {
      var x :| x in all;
      var rest := ListOf(all - {x});
      ListsAppend(rest, all - {x}, x);
      items := rest + [x];
      assert all - {x} + {x} == all;
    }
  }

  predicate UnwindsOrSweeps(step: Step) {
    Unwinds(step) || step.Sweep?
  }

  /** No call waits for ever: from every reachable state the timer's next sweep after the
      deadline, with loops and callbacks that come to their end, answers a pending call
      exactly once, even if no reply ever comes. */
  lemma {:induction false} EveryCallIsAnswered(modules: set<Topic>, s: State, id: nat) returns (steps: seq<Step>, end: State)
    requires Reachable(modules, s) && id in s.pending
    ensures Run(modules, s, steps, end) && end.frames == []
    ensures forall step | step in steps :: UnwindsOrSweeps(step)
    ensures id !in end.pending && end.answered[id] == 1
  {
    hide Apply, A.Inv, A.DetachedCount;
    var first, mid := StackUnwinds(modules, s);
    StillReachable(modules, s, first, mid);
    A.AnsweredExactlyOnce(modules, s, id);
    A.IssuedStays(modules, s, first, mid, id);
    A.AnsweredExactlyOnce(modules, mid, id);
    steps, end := first, mid;
    if id in mid.pending {
      var now := mid.deadlines[id];
      var expired := ListOf(Due(mid, now));
      var step := Sweep(now, expired);
      var rest;
      rest, end := StackUnwinds(modules, Apply(modules, mid, step));
      A.SweepAnswersDueCalls(modules, mid, now, expired, rest, end, id);
      FirstStep(modules, mid, step, rest, end);
      RunConcat(modules, s, first, mid, [step] + rest, end);
      steps := first + ([step] + rest);
    }
  }

  lemma StillReachable(modules: set<Topic>, s: State, steps: seq<Step>, end: State)
    requires Reachable(modules, s) && Run(modules, s, steps, end)
    ensures Reachable(modules, end)
  {
    hide Apply, Enabled, Initial;
    var before :| Run(modules, Initial(), before, s);
    RunConcat(modules, Initial(), before, s, steps, end);
  }

  // -- interest ----------------------------------------------------------------

  function Interested(count: int, step: Step, topic: Topic): int {
    if step == SubscribeTo(topic) then count + 1
    else if step == UnsubscribeFrom(topic) && count > 0 then count - 1
    else count
  }

  /** Subscriptions minus those ended, where an end without a beginning does not count. */
  function Interest(count: int, steps: seq<Step>, topic: Topic): int
    decreases |steps|
  {
    if steps == [] then count else Interest(Interested(count, steps[0], topic), steps[1..], topic)
  }

  lemma StepInterest(modules: set<Topic>, s: State, step: Step, topic: Topic)
    requires Enabled(s, step)
    ensures RefCount(Apply(modules, s, step), topic) == Interested(RefCount(s, topic), step, topic)
  {
    hide Due, Lists;
  }

  /** The count of a topic is the interest in it, whatever else happens in the run:
      reconnects, callbacks and timers do not touch it. */
  lemma {:induction false} CountIsInterest(modules: set<Topic>, s: State, steps: seq<Step>, end: State, topic: Topic)
    requires Run(modules, s, steps, end)
    ensures RefCount(end, topic) == Interest(RefCount(s, topic), steps, topic)
    decreases |steps|
  {
    hide Apply, Enabled, RefCount;
    if steps != [] {
      StepInterest(modules, s, steps[0], topic);
      CountIsInterest(modules, Apply(modules, s, steps[0]), steps[1..], end, topic);
    }
  }

  function Times(steps: seq<Step>, step: Step): nat {
    if steps == [] then 0 else (if steps[0] == step then 1 else 0) + Times(steps[1..], step)
  }

  /** Nobody ends an interest that did not begin. */
  predicate Paired(count: int, steps: seq<Step>, topic: Topic) {
    forall n | 0 <= n <= |steps| ::
      Times(steps[..n], UnsubscribeFrom(topic)) <= count + Times(steps[..n], SubscribeTo(topic))
  }

  /** If nobody ends what did not begin, interest is the plain difference. */
  lemma {:induction false} PairedInterest(count: int, steps: seq<Step>, topic: Topic)
    requires Paired(count, steps, topic)
    ensures Interest(count, steps, topic) ==
            count + Times(steps, SubscribeTo(topic)) - Times(steps, UnsubscribeFrom(topic))
    decreases |steps|
  {
    if steps != [] {
      assert Times(steps[..1], UnsubscribeFrom(topic)) <= count + Times(steps[..1], SubscribeTo(topic));
      assert steps[..1][1..] == [];
      forall n | 0 <= n <= |steps| - 1
        ensures var next := Interested(count, steps[0], topic);
                Times(steps[1..][..n], UnsubscribeFrom(topic)) <= next + Times(steps[1..][..n], SubscribeTo(topic)) {
        assert steps[..n + 1][1..] == steps[1..][..n];
        assert Times(steps[..n + 1], UnsubscribeFrom(topic)) <= count + Times(steps[..n + 1], SubscribeTo(topic));
      }
      PairedInterest(Interested(count, steps[0], topic), steps[1..], topic);
    }
  }
}
