/** Every call is answered exactly once, in time. */
module AnsweredOnce {
  import opened Basics
  import opened HubModel
  import opened ServerModel
  import opened BackendModel

  function One(b: bool): nat {
    if b then 1 else 0
  }

  /** How many suspended disconnect loops still have to answer the call. */
  function DetachedCount(frames: seq<Frame>, id: nat): nat {
    if frames == [] then 0
    else
      var n := |frames| - 1;
      DetachedCount(frames[..n], id) + One(frames[n].Detached? && id in frames[n].waiting)
  }

  predicate InSweep(frames: seq<Frame>, id: nat) {
    exists i | 0 <= i < |frames| :: frames[i].Sweeping? && id in frames[i].expired
  }

  ghost predicate Inv(s: State) {
    && s.pending == s.deadlines.Keys
    && (forall id | id in s.issued :: id < s.nextId)
    && (forall id :: One(id in s.pending) + DetachedCount(s.frames, id) + s.answered[id] == One(id in s.issued))
    && (forall id | id in s.pending :: s.sweepRunning || InSweep(s.frames, id))
  }

  lemma CountAppend(frames: seq<Frame>, frame: Frame, id: nat)
    ensures DetachedCount(frames + [frame], id) ==
            DetachedCount(frames, id) + One(frame.Detached? && id in frame.waiting)
  {
    assert (frames + [frame])[..|frames|] == frames;
  }

  lemma SweepAppend(frames: seq<Frame>, frame: Frame, id: nat)
    ensures InSweep(frames + [frame], id) <==>
            InSweep(frames, id) || (frame.Sweeping? && id in frame.expired)
  {
    var more := frames + [frame];
    if InSweep(frames, id) {
      var i :| 0 <= i < |frames| && frames[i].Sweeping? && id in frames[i].expired;
      assert more[i] == frames[i];
    }
    if frame.Sweeping? && id in frame.expired {
      assert more[|frames|] == frame;
    }
  }

  lemma LastFrame(frames: seq<Frame>)
    requires frames != []
    ensures frames == frames[..|frames| - 1] + [frames[|frames| - 1]]
  {
  }

  lemma AnswerKeeps(s: State, id: nat)
    requires s.pending == s.deadlines.Keys && id in s.pending
    requires forall other | other in s.issued :: other < s.nextId
    requires forall other ::
      One(other in s.pending) + DetachedCount(s.frames, other) + s.answered[other] == One(other in s.issued)
    requires forall other | other in s.pending && other != id :: s.sweepRunning || InSweep(s.frames, other)
    ensures Inv(Answer(s, id))
  {
    var n := Answer(s, id);
    forall other
      ensures One(other in n.pending) + DetachedCount(n.frames, other) + n.answered[other] == One(other in n.issued)
      ensures other in n.pending ==> n.sweepRunning || InSweep(n.frames, other)
    {
      CountAppend(s.frames, InCallback, other);
      SweepAppend(s.frames, InCallback, other);
    }
  }

  lemma CallKeeps(s: State, callback: bool, deadline: int)
    requires Inv(s)
    ensures Inv(StartCall(s, callback, deadline))
  {
    if callback {
      var id := s.nextId;
      assert id !in s.issued;
      assert One(id in s.pending) + DetachedCount(s.frames, id) + s.answered[id] == 0;
      var waiting := s.(nextId := id + 1, pending := s.pending + {id}, deadlines := s.deadlines[id := deadline],
                        sweepRunning := true, issued := s.issued + {id});
      assert Inv(waiting);
      if !s.connected {
        AnswerKeeps(waiting, id);
      }
    }
  }

  /** A disconnect loop on top invokes its next callback. */
  lemma DetachedKeeps(s: State, n: State, waiting: set<nat>, pick: nat)
    requires Inv(s) && s.frames != [] && s.frames[|s.frames| - 1] == Detached(waiting) && pick in waiting
    requires n == s.(frames := s.frames[..|s.frames| - 1] + [Detached(waiting - {pick})] + [InCallback],
                     answered := s.answered + multiset{pick})
    ensures Inv(n)
  {
    var below := s.frames[..|s.frames| - 1];
    var less := Detached(waiting - {pick});
    LastFrame(s.frames);
    forall id
      ensures DetachedCount(n.frames, id) + One(id == pick) == DetachedCount(s.frames, id)
      ensures InSweep(n.frames, id) <==> InSweep(s.frames, id)
    {
      CountAppend(below, Detached(waiting), id);
      SweepAppend(below, Detached(waiting), id);
      CountAppend(below, less, id);
      SweepAppend(below, less, id);
      CountAppend(below + [less], InCallback, id);
      SweepAppend(below + [less], InCallback, id);
    }
  }

  /** A frame that waits for nothing is taken off. */
  lemma PopKeeps(s: State)
    requires Inv(s) && s.frames != []
    requires var top := s.frames[|s.frames| - 1];
             top.InCallback? || top == Detached({}) || top == Sweeping([])
    ensures Inv(Pop(s))
  {
    var below, top := s.frames[..|s.frames| - 1], s.frames[|s.frames| - 1];
    LastFrame(s.frames);
    forall id ensures DetachedCount(below, id) == DetachedCount(s.frames, id)
              ensures InSweep(below, id) <==> InSweep(s.frames, id) {
      CountAppend(below, top, id);
      SweepAppend(below, top, id);
    }
  }

  /** The sweep on top goes on to its next call. */
  lemma SweepingFrames(s: State, expired: seq<nat>, id: nat)
    requires s.frames != [] && s.frames[|s.frames| - 1] == Sweeping(expired) && expired != []
    ensures var next := Top(s, Sweeping(expired[1..])).frames;
            && DetachedCount(next, id) == DetachedCount(s.frames, id)
            && (InSweep(s.frames, id) <==> InSweep(next, id) || id == expired[0])
  {
    var below := s.frames[..|s.frames| - 1];
    LastFrame(s.frames);
    CountAppend(below, Sweeping(expired), id);
    SweepAppend(below, Sweeping(expired), id);
    CountAppend(below, Sweeping(expired[1..]), id);
    SweepAppend(below, Sweeping(expired[1..]), id);
    assert id in expired <==> id == expired[0] || id in expired[1..];
  }

  lemma SweepingKeeps(s: State, expired: seq<nat>)
    requires Inv(s) && s.frames != [] && s.frames[|s.frames| - 1] == Sweeping(expired) && expired != []
    ensures var next := Top(s, Sweeping(expired[1..]));
            Inv(if expired[0] in s.pending then Answer(next, expired[0]) else next)
  {
    var next := Top(s, Sweeping(expired[1..]));
    forall id ensures DetachedCount(next.frames, id) == DetachedCount(s.frames, id)
              ensures InSweep(s.frames, id) <==> InSweep(next.frames, id) || id == expired[0] {
      SweepingFrames(s, expired, id);
    }
    if expired[0] in s.pending {
      AnswerKeeps(next, expired[0]);
    }
  }

  lemma {:induction false} ContinueKeeps(modules: set<Topic>, s: State, pick: nat)
    requires Inv(s) && Enabled(s, Continue(pick))
    ensures Inv(Apply(modules, s, Continue(pick)))
  {
    match s.frames[|s.frames| - 1]
    case Detached(waiting) =>
      if waiting == {} {
        PopKeeps(s);
      } else {
        DetachedKeeps(s, Apply(modules, s, Continue(pick)), waiting, pick);
      }
    case Sweeping(expired) =>
      if expired == [] {
        PopKeeps(s);
      } else {
        SweepingKeeps(s, expired);
      }
  }

  /** A frame on top that waits for no call. */
  lemma FrameKeeps(s: State, n: State, frame: Frame)
    requires Inv(s)
    requires n.frames == s.frames + [frame] && !frame.Detached?
    requires n.pending == s.pending && n.deadlines == s.deadlines && n.nextId == s.nextId
    requires n.issued == s.issued && n.answered == s.answered
    requires forall id | id in s.pending :: n.sweepRunning || (frame.Sweeping? && id in frame.expired) || InSweep(s.frames, id)
    ensures Inv(n)
  {
    forall id ensures DetachedCount(n.frames, id) == DetachedCount(s.frames, id)
              ensures InSweep(n.frames, id) <==> InSweep(s.frames, id) || (frame.Sweeping? && id in frame.expired) {
      CountAppend(s.frames, frame, id);
      SweepAppend(s.frames, frame, id);
    }
  }

  lemma DisconnectKeeps(modules: set<Topic>, s: State)
    requires Inv(s) && ShellRuns(s)
    ensures Inv(Apply(modules, s, Disconnect))
  {
    var n := Apply(modules, s, Disconnect);
    forall id ensures One(id in n.pending) + DetachedCount(n.frames, id) + n.answered[id] == One(id in n.issued) {
      CountAppend(s.frames, Detached(s.pending), id);
    }
  }

  lemma {:induction false} StepInv(modules: set<Topic>, s: State, step: Step)
    requires Inv(s) && Enabled(s, step)
    ensures Inv(Apply(modules, s, step))
  {
    hide Inv;
    match step
    case Call(callback, deadline) => CallKeeps(s, callback, deadline);
    case Return => PopKeeps(s);
    case Continue(pick) => ContinueKeeps(modules, s, pick);
    case Reply(id) => ReplyKeeps(s, id);
    case Sweep(now, expired) => SweepKeeps(modules, s, now, expired);
    case Disconnect => DisconnectKeeps(modules, s);
    case _ => SameTablesKeep(s, Apply(modules, s, step));
  }

  lemma ReplyKeeps(s: State, id: nat)
    requires Inv(s)
    ensures id in s.pending ==> Inv(Answer(s, id))
  {
    if id in s.pending {
      AnswerKeeps(s, id);
    }
  }

  lemma SweepKeeps(modules: set<Topic>, s: State, now: int, expired: seq<nat>)
    requires Inv(s) && Enabled(s, Sweep(now, expired))
    ensures Inv(Apply(modules, s, Sweep(now, expired)))
  {
    assert forall id | id in s.pending :: id in Due(s, now) || s.deadlines[id] > now;
    hide DetachedCount;
    FrameKeeps(s, Apply(modules, s, Sweep(now, expired)), Sweeping(expired));
  }

  /** Subscriptions and the connection do not touch the calls. */
  lemma SameTablesKeep(s: State, n: State)
    requires Inv(s) && n.pending == s.pending && n.deadlines == s.deadlines && n.nextId == s.nextId
    requires n.frames == s.frames && n.sweepRunning == s.sweepRunning && n.issued == s.issued && n.answered == s.answered
    ensures Inv(n)
  {
  }

  lemma {:induction false} RunInv(modules: set<Topic>, s: State, steps: seq<Step>, end: State)
    requires Inv(s) && Run(modules, s, steps, end)
    ensures Inv(end)
    decreases |steps|
  {
    if steps != [] {
      StepInv(modules, s, steps[0]);
      RunInv(modules, Apply(modules, s, steps[0]), steps[1..], end);
    }
  }

  lemma ReachableInv(modules: set<Topic>, s: State)
    requires Reachable(modules, s)
    ensures Inv(s)
  {
    var steps :| Run(modules, Initial(), steps, s);
    RunInv(modules, Initial(), steps, s);
  }

  /** At every moment, and inside any callback: a call with a callback is pending, or in
      the hands of one disconnect loop, or was answered; once altogether. The two
      tables agree, and away from a running sweep a pending call has the timer on. */
  lemma AnsweredExactlyOnce(modules: set<Topic>, s: State, id: nat)
    requires Reachable(modules, s)
    ensures One(id in s.pending) + DetachedCount(s.frames, id) + s.answered[id] == One(id in s.issued)
    ensures s.pending == s.deadlines.Keys
    ensures s.frames == [] ==> s.answered[id] == One(id in s.issued - s.pending)
    ensures s.frames == [] && s.pending != {} ==> s.sweepRunning
  {
    ReachableInv(modules, s);
    if s.frames == [] && s.pending != {} {
      var one :| one in s.pending;
      assert !InSweep(s.frames, one);
    }
  }

  /** The reply to a pending call takes it out of both tables and runs its callback, for the
      first and only time; no other call is touched. Any other reply changes nothing. */
  lemma ReplyAnswers(modules: set<Topic>, s: State, id: nat)
    requires Reachable(modules, s) && ShellRuns(s)
    ensures var n := Apply(modules, s, Reply(id));
            if id !in s.pending then n == s
            else
              && id !in n.pending && id !in n.deadlines && n.answered[id] == 1
              && n.frames == s.frames + [InCallback]
              && n.issued == s.issued && n.nextId == s.nextId && n.wire == s.wire
              && forall other | other != id ::
                   && (other in n.pending <==> other in s.pending)
                   && (other in n.deadlines <==> other in s.deadlines)
                   && (other in s.deadlines ==> n.deadlines[other] == s.deadlines[other])
                   && n.answered[other] == s.answered[other]
  {
    ReachableInv(modules, s);
    assert One(id in s.pending) + DetachedCount(s.frames, id) + s.answered[id] == One(id in s.issued);
  }

  /** Once issued, a call that left the pending table does not come back, and one that
      a sweep has in hand leaves it before the sweep ends. */
  ghost predicate Leaving(s: State, id: nat) {
    && id < s.nextId
    && (id in s.pending ==> InSweep(s.frames, id))
  }

  lemma ContinueKeepsLeaving(modules: set<Topic>, s: State, pick: nat, id: nat)
    requires Leaving(s, id) && Enabled(s, Continue(pick))
    ensures Leaving(Apply(modules, s, Continue(pick)), id)
  {
    var below, top := s.frames[..|s.frames| - 1], s.frames[|s.frames| - 1];
    LastFrame(s.frames);
    SweepAppend(below, top, id);
    match top
    case Detached(waiting) =>
      var less := Detached(waiting - {pick});
      SweepAppend(below, less, id);
      SweepAppend(below + [less], InCallback, id);
    case Sweeping(expired) =>
      if expired != [] {
        SweepingFrames(s, expired, id);
        SweepAppend(Top(s, Sweeping(expired[1..])).frames, InCallback, id);
      }
  }

  lemma StepKeepsLeaving(modules: set<Topic>, s: State, step: Step, id: nat)
    requires Leaving(s, id) && Enabled(s, step)
    ensures Leaving(Apply(modules, s, step), id)
  {
    match step
    case Continue(pick) => ContinueKeepsLeaving(modules, s, pick, id);
    case Return =>
      LastFrame(s.frames);
      SweepAppend(s.frames[..|s.frames| - 1], InCallback, id);
    case Sweep(_, expired) => SweepAppend(s.frames, Sweeping(expired), id);
    case Call(_, _) => SweepAppend(s.frames, InCallback, id);
    case Reply(_) => SweepAppend(s.frames, InCallback, id);
    case _ =>
  }

  lemma {:induction false} RunKeepsLeaving(modules: set<Topic>, s: State, steps: seq<Step>, end: State, id: nat)
    requires Leaving(s, id) && Run(modules, s, steps, end)
    ensures Leaving(end, id)
    decreases |steps|
  {
    if steps != [] {
      StepKeepsLeaving(modules, s, steps[0], id);
      RunKeepsLeaving(modules, Apply(modules, s, steps[0]), steps[1..], end, id);
    }
  }

  /** A sweep answers every call that is due, whatever the callbacks do meanwhile. */
  lemma SweepAnswersDueCalls(modules: set<Topic>, s: State, now: int, expired: seq<nat>, steps: seq<Step>, end: State, id: nat)
    requires Reachable(modules, s) && Enabled(s, Sweep(now, expired))
    requires Run(modules, Apply(modules, s, Sweep(now, expired)), steps, end) && end.frames == []
    requires id in s.pending && id in Due(s, now)
    ensures id !in end.pending && end.answered[id] == 1
  {
    ReachableInv(modules, s);
    var swept := Apply(modules, s, Sweep(now, expired));
    StepInv(modules, s, Sweep(now, expired));
    RunInv(modules, swept, steps, end);
    assert s.pending <= s.issued by {
      forall other | other in s.pending ensures other in s.issued {
        assert One(other in s.pending) + DetachedCount(s.frames, other) + s.answered[other] == One(other in s.issued);
      }
    }
    SweepAppend(s.frames, Sweeping(expired), id);
    RunKeepsLeaving(modules, swept, steps, end, id);
    IssuedStays(modules, swept, steps, end, id);
  }

  /** A disconnect answers every call that was pending. */
  lemma DisconnectAnswersAll(modules: set<Topic>, s: State, steps: seq<Step>, end: State, id: nat)
    requires Reachable(modules, s) && Enabled(s, Disconnect)
    requires Run(modules, Apply(modules, s, Disconnect), steps, end) && end.frames == []
    requires id in s.pending
    ensures id !in end.pending && end.answered[id] == 1
  {
    ReachableInv(modules, s);
    var gone := Apply(modules, s, Disconnect);
    StepInv(modules, s, Disconnect);
    RunInv(modules, gone, steps, end);
    assert One(id in s.pending) + DetachedCount(s.frames, id) + s.answered[id] == One(id in s.issued);
    RunKeepsLeaving(modules, gone, steps, end, id);
    IssuedStays(modules, gone, steps, end, id);
  }

  lemma {:induction false} IssuedStays(modules: set<Topic>, s: State, steps: seq<Step>, end: State, id: nat)
    requires id in s.issued && Run(modules, s, steps, end)
    ensures id in end.issued
    decreases |steps|
  {
    if steps != [] {
      IssuedStays(modules, Apply(modules, s, steps[0]), steps[1..], end, id);
    }
  }
}
