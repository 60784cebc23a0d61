/** The display preview transaction of `backend/src/modules/hypr.rs`: a request is
    tried out live, kept only when it is confirmed, and taken back on revert, on
    expiry, or when applying it fails. */
module HyprPreview {
  import opened Basics
  import opened Text
  import opened HyprModel
  import opened HyprLayout

  // -- the compositor ----------------------------------------------------------

  /** The whole number of hertz a mode asks for. */
  function Hertz(mode: string): Option<int> {
    match SplitOnce(mode, {'@'})
    case None => None
    case Some((_, rate)) => ParseI64(rate)
  }

  /** The display shows what was asked of it: a disabled one is off, another is on and
      has every field that was asked for. Fields that were not asked for, keywords and
      fractional rates may turn out either way. */
  predicate ShowsOne(s: MonitorSetting, m: LiveMonitor) {
    if s.disabled then m.disabled
    else
      && !m.disabled
      && (s.mode.Some? ==>
            && (var size := ParseSize(SizePart(s.mode.value)); size.Some? ==> size.value == (m.width, m.height))
            && (var rate := Hertz(s.mode.value); rate.Some? ==> rate.value == Round(m.refreshRate)))
      && (s.position.Some? ==>
            var point := ParsePoint(s.position.value); point.Some? ==> point.value == (m.x, m.y))
      && (s.scale.Some? ==> s.scale.value == m.scale)
      && (s.transform.Some? ==> s.transform.value == m.transform)
      && (m.vrr.Some? && s.vrr == Some(0) ==> !m.vrr.value)
      && (m.vrr.Some? && s.vrr == Some(1) ==> m.vrr.value)
  }

  /** Every display the settings speak of shows what they ask. */
  predicate Shows(settings: seq<MonitorSetting>, live: seq<LiveMonitor>) {
    forall i | 0 <= i < |live| ::
      var sent := SentFor(settings, live[i].name);
      sent.Some? ==> ShowsOne(sent.value, live[i])
  }

  /** No display came or went. */
  predicate SameDisplays(a: seq<LiveMonitor>, b: seq<LiveMonitor>) {
    && |a| == |b|
    && (forall i | 0 <= i < |a| :: a[i].name == b[i].name && a[i].vrr.Some? == b[i].vrr.Some?)
  }

  predicate SaneOne(m: LiveMonitor) {
    && IsI64(m.width) && IsI64(m.height) && IsI64(m.x) && IsI64(m.y) && IsI64(Round(m.refreshRate))
    && (!m.disabled ==> m.width > 0 && m.height > 0 && m.scale > 0.0)
  }

  /** What a compositor reports: one entry per output, machine integers, and a size and
      a scale for every display that is on. */
  predicate Sane(live: seq<LiveMonitor>) {
    DistinctNames(live) && forall i | 0 <= i < |live| :: SaneOne(live[i])
  }

  predicate SameViewOne(a: LiveMonitor, b: LiveMonitor) {
    && a.name == b.name && a.disabled == b.disabled
    && (!a.disabled ==>
          && a.width == b.width && a.height == b.height && a.x == b.x && a.y == b.y
          && a.scale == b.scale && a.transform == b.transform && a.vrr == b.vrr
          && Round(a.refreshRate) == Round(b.refreshRate))
  }

  /** The same layout to look at: the same displays are off, and the others agree in
      every field that a snapshot records. */
  predicate SameView(a: seq<LiveMonitor>, b: seq<LiveMonitor>) {
    |a| == |b| && forall i | 0 <= i < |a| :: SameViewOne(a[i], b[i])
  }

  lemma {:induction false} SentUnique(settings: seq<MonitorSetting>, i: nat)
    requires i < |settings|
    requires forall j, k | 0 <= j < k < |settings| :: settings[j].output != settings[k].output
    ensures SentFor(settings, settings[i].output) == Some(settings[i])
  {
    var n := |settings| - 1;
    if i < n {
      SentUnique(settings[..n], i);
    }
  }

  lemma {:induction false} SnapshotSent(live: seq<LiveMonitor>, i: nat)
    requires i < |live| && DistinctNames(live)
    ensures SentFor(Snapshot(live), live[i].name) == Some(SnapshotOne(live[i]))
  {
    hide ModeText, SizeText, Round;
    var settings := Snapshot(live);
    assert forall k | 0 <= k < |live| :: settings[k].output == live[k].name;
    SentUnique(settings, i);
  }

  /** The printed mode asks for exactly the size and the rounded rate it was made from. */
  lemma ModeTextAsks(m: LiveMonitor)
    requires SaneOne(m)
    ensures ParseSize(SizePart(ModeText(m))) == if m.width > 0 && m.height > 0 then Some((m.width, m.height)) else None
    ensures Hertz(ModeText(m)) == Some(Round(m.refreshRate))
  {
    var size, rate := SizeText(m.width, m.height), IntText(Round(m.refreshRate));
    SizeTextTrimmed(m.width, m.height);
    SizePartOfMode(size, rate);
    ParseOfSizeText(m.width, m.height);
    SplitOnceAt(size, '@', rate, {'@'});
    ParseOfIntText(Round(m.refreshRate));
    hide ParseSize, SizePart, SizeText, IntText, Round, SplitOnce, ParseI64;
  }

  lemma SnapshotOneShown(base: LiveMonitor, after: LiveMonitor)
    requires SaneOne(base) && base.name == after.name && base.vrr.Some? == after.vrr.Some?
    ensures ShowsOne(SnapshotOne(base), after) <==> SameViewOne(after, base)
  {
    ModeTextAsks(base);
    ParseOfPointText(base.x, base.y);
    hide ParseSize, ParsePoint, SizePart, SizeText, Hertz, Round, ModeText;
  }

  /** A snapshot pins the layout down: the displays show it iff they look as they did
      when it was taken. */
  lemma {:induction false} SnapshotPinsLayout(base: seq<LiveMonitor>, after: seq<LiveMonitor>)
    requires Sane(base) && SameDisplays(base, after)
    ensures Shows(Snapshot(base), after) <==> SameView(after, base)
  {
    hide ShowsOne, SameViewOne, SnapshotOne, SaneOne;
    forall i | 0 <= i < |base|
      ensures SentFor(Snapshot(base), after[i].name) == Some(SnapshotOne(base[i]))
      ensures ShowsOne(SnapshotOne(base[i]), after[i]) <==> SameViewOne(after[i], base[i]) {
      SnapshotSent(base, i);
      SnapshotOneShown(base[i], after[i]);
    }
  }

  // -- states and steps --------------------------------------------------------

  datatype Preview = Preview(token: string, previous: seq<MonitorSetting>, requested: seq<MonitorSetting>)

  /** The compositor's displays, the stored monitors, the pending preview, the tasks
      that wait to take a preview back, and the counter of `next_token`. */
  datatype State = State(
    live: seq<LiveMonitor>,
    store: seq<MonitorSetting>,
    preview: Option<Preview>,
    guards: set<string>,
    pid: nat,
    serial: nat)

  /** How an `apply_live` went, and the displays after it. */
  datatype Applied = Applied(ok: bool, after: seq<LiveMonitor>)

  datatype Step =
    | Begin(requested: seq<MonitorSetting>, readable: bool, attempt: Applied, rollback: Applied)
    | Confirm(token: string, saved: bool)
    | Revert(token: string, restored: Applied)
    | Expire(token: string, restored: Applied)
    | SetMonitors(requested: seq<MonitorSetting>, readable: bool, attempt: Applied, rollback: Applied, saved: bool)
    | ResetMonitors(saved: bool, reloaded: seq<LiveMonitor>)
    | Outside(after: seq<LiveMonitor>)

  function TokenText(pid: nat, serial: nat): string {
    "display-" + NatText(pid) + "-" + NatText(serial)
  }

  lemma TokensDiffer(pid: nat, a: nat, b: nat)
    requires TokenText(pid, a) == TokenText(pid, b)
    ensures a == b
  {
    var prefix := "display-" + NatText(pid) + "-";
    assert TokenText(pid, a)[|prefix|..] == NatText(a);
    assert TokenText(pid, b)[|prefix|..] == NatText(b);
    NatTextValue(a);
    NatTextValue(b);
  }

  function IndexOf(store: seq<MonitorSetting>, output: string): (n: nat)
    ensures n <= |store|
    ensures n < |store| ==> store[n].output == output
    ensures forall i | 0 <= i < n :: store[i].output != output
  {
    if store == [] || store[0].output == output then 0 else 1 + IndexOf(store[1..], output)
  }

  function Upsert(store: seq<MonitorSetting>, s: MonitorSetting): seq<MonitorSetting> {
    var n := IndexOf(store, s.output);
    if n < |store| then store[n := s] else store + [s]
  }

  function UpsertAll(store: seq<MonitorSetting>, list: seq<MonitorSetting>): seq<MonitorSetting> {
    if list == [] then store
    else
      var n := |list| - 1;
      Upsert(UpsertAll(store, list[..n]), list[n])
  }

  function Pending(s: State): set<string> {
    if s.preview.Some? then {s.preview.value.token} else {}
  }

  predicate Holds(s: State, token: string) {
    s.preview.Some? && s.preview.value.token == token
  }

  /** What the preview goes back to: chained previews keep the first one's snapshot. */
  function Previous(s: State): seq<MonitorSetting> {
    if s.preview.Some? then s.preview.value.previous else Snapshot(s.live)
  }

  /** A request that gets as far as the compositor. */
  ghost predicate Tried(s: State, requested: seq<MonitorSetting>, readable: bool, rateOk: RateParser) {
    requested != [] && readable && Acceptable(requested, s.live, rateOk)
  }

  ghost function BeginStep(s: State, requested: seq<MonitorSetting>, readable: bool,
                           attempt: Applied, rollback: Applied, rateOk: RateParser): State
  {
    if !Tried(s, requested, readable, rateOk) then s
    else if attempt.ok then
      var token := TokenText(s.pid, s.serial);
      s.(live := attempt.after, preview := Some(Preview(token, Previous(s), requested)),
         guards := s.guards - Pending(s) + {token}, serial := s.serial + 1)
    else s.(live := rollback.after, preview := None, guards := s.guards - Pending(s))
  }

  function ConfirmStep(s: State, token: string, saved: bool): State {
    if !Holds(s, token) then s
    else
      s.(preview := None, guards := s.guards - {token},
         store := if saved then UpsertAll(s.store, s.preview.value.requested) else s.store)
  }

  function RevertStep(s: State, token: string, restored: Applied): State {
    if !Holds(s, token) then s
    else s.(live := restored.after, preview := None, guards := s.guards - {token})
  }

  /** The guard's own end; the guard is gone whether or not it found its preview. */
  function ExpireStep(s: State, token: string, restored: Applied): State {
    var woken := s.(guards := s.guards - {token});
    if !Holds(s, token) then woken else woken.(live := restored.after, preview := None)
  }

  /** Without a compositor the list is stored unchecked. */
  ghost function SetStep(s: State, requested: seq<MonitorSetting>, readable: bool,
                         attempt: Applied, rollback: Applied, saved: bool, rateOk: RateParser): State
  {
    if requested == [] || (readable && !Acceptable(requested, s.live, rateOk)) then s
    else if readable && !attempt.ok then s.(live := rollback.after)
    else
      s.(live := if readable then attempt.after else s.live,
         store := if saved then UpsertAll(s.store, requested) else s.store)
  }

  function ResetStep(s: State, saved: bool, reloaded: seq<LiveMonitor>): State {
    if saved then s.(store := [], live := reloaded) else s
  }

  ghost function Apply(s: State, step: Step, rateOk: RateParser): State {
    match step
    case Begin(requested, readable, attempt, rollback) => BeginStep(s, requested, readable, attempt, rollback, rateOk)
    case Confirm(token, saved) => ConfirmStep(s, token, saved)
    case Revert(token, restored) => RevertStep(s, token, restored)
    case Expire(token, restored) => ExpireStep(s, token, restored)
    case SetMonitors(requested, readable, attempt, rollback, saved) =>
      SetStep(s, requested, readable, attempt, rollback, saved, rateOk)
    case ResetMonitors(saved, reloaded) => ResetStep(s, saved, reloaded)
    case Outside(after) => s.(live := after)
  }

  predicate Reports(before: seq<LiveMonitor>, after: seq<LiveMonitor>) {
    SameDisplays(before, after) && Sane(after)
  }

  /** An accepted call shows what it asked for; a failed one may have done anything. */
  predicate Honoured(before: seq<LiveMonitor>, settings: seq<MonitorSetting>, applied: Applied) {
    Reports(before, applied.after) && (applied.ok ==> Shows(settings, applied.after))
  }

  /** What the world can answer. A guard fires only while it has not been aborted. */
  predicate Enabled(s: State, step: Step) {
    match step
    case Begin(requested, _, attempt, rollback) =>
      Honoured(s.live, requested, attempt) && Honoured(s.live, Previous(s), rollback)
    case Confirm(_, _) => true
    case Revert(token, restored) => Holds(s, token) ==> Honoured(s.live, s.preview.value.previous, restored)
    case Expire(token, restored) =>
      token in s.guards && (Holds(s, token) ==> Honoured(s.live, s.preview.value.previous, restored))
    case SetMonitors(requested, _, attempt, rollback, _) =>
      Honoured(s.live, requested, attempt) && Honoured(s.live, Snapshot(s.live), rollback)
    case ResetMonitors(_, reloaded) => Reports(s.live, reloaded)
    case Outside(after) => Reports(s.live, after)
  }

  predicate Unique(store: seq<MonitorSetting>) {
    forall i, j | 0 <= i < j < |store| :: store[i].output != store[j].output
  }

  predicate Boot(s: State) {
    Sane(s.live) && Unique(s.store) && s.preview.None? && s.guards == {}
  }

  /** The state after the first `n` steps. */
  ghost function At(s: State, steps: seq<Step>, n: nat, rateOk: RateParser): State
    requires n <= |steps|
  {
    if n == 0 then s else Apply(At(s, steps, n - 1, rateOk), steps[n - 1], rateOk)
  }

  /** A run: it starts without a preview and every step is possible where it is taken. */
  ghost predicate IsRun(s: State, steps: seq<Step>, rateOk: RateParser) {
    Boot(s) && forall i | 0 <= i < |steps| :: Enabled(At(s, steps, i, rateOk), steps[i])
  }

  // -- what every step keeps ---------------------------------------------------

  ghost predicate Inv(s: State) {
    Sane(s.live) && Unique(s.store) && s.guards == Pending(s) && (s.preview.Some? ==> TokenGiven(s))
  }

  ghost predicate TokenGiven(s: State)
    requires s.preview.Some?
  {
    exists k: nat :: k < s.serial && s.preview.value.token == TokenText(s.pid, k)
  }

  lemma UpsertUnique(store: seq<MonitorSetting>, s: MonitorSetting)
    requires Unique(store)
    ensures Unique(Upsert(store, s))
  {
  }

  lemma {:induction false} UpsertAllUnique(store: seq<MonitorSetting>, list: seq<MonitorSetting>)
    requires Unique(store)
    ensures Unique(UpsertAll(store, list))
  {
    if list != [] {
      UpsertAllUnique(store, list[..|list| - 1]);
      UpsertUnique(UpsertAll(store, list[..|list| - 1]), list[|list| - 1]);
    }
  }

  lemma StepReports(s: State, step: Step, rateOk: RateParser)
    requires Sane(s.live) && Enabled(s, step)
    ensures Reports(s.live, Apply(s, step, rateOk).live)
  {
    hide Acceptable, Previous, Sane, Shows, Snapshot, TokenText, UpsertAll;
  }

  lemma StepKeepsUnique(s: State, step: Step, rateOk: RateParser)
    requires Unique(s.store)
    ensures Unique(Apply(s, step, rateOk).store)
  {
    hide Acceptable, Previous, Unique, TokenText, UpsertAll;
    NoneUnique();
    if s.preview.Some? {
      UpsertAllUnique(s.store, s.preview.value.requested);
    }
    if step.SetMonitors? {
      UpsertAllUnique(s.store, step.requested);
    }
  }

  lemma StepKeepsGuard(s: State, step: Step, rateOk: RateParser)
    requires s.guards == Pending(s) && (s.preview.Some? ==> TokenGiven(s)) && Enabled(s, step)
    ensures var t := Apply(s, step, rateOk); t.guards == Pending(t) && (t.preview.Some? ==> TokenGiven(t))
    ensures var t := Apply(s, step, rateOk); t.pid == s.pid && s.serial <= t.serial
  {
    hide Acceptable, Previous, Honoured, Reports, TokenText, UpsertAll;
  }

  lemma StepInv(s: State, step: Step, rateOk: RateParser)
    requires Inv(s) && Enabled(s, step)
    ensures var t := Apply(s, step, rateOk); Inv(t) && SameDisplays(s.live, t.live) && t.pid == s.pid && s.serial <= t.serial
  {
    hide Apply, Enabled, Sane, Unique, TokenGiven, Pending, SameDisplays;
    StepReports(s, step, rateOk);
    StepKeepsUnique(s, step, rateOk);
    StepKeepsGuard(s, step, rateOk);
  }

  lemma NoneUnique()
    ensures Unique([])
  {
  }

  lemma {:induction false} RunInv(s: State, steps: seq<Step>, n: nat, rateOk: RateParser)
    requires IsRun(s, steps, rateOk) && n <= |steps|
    ensures Inv(At(s, steps, n, rateOk)) && SameDisplays(s.live, At(s, steps, n, rateOk).live)
    ensures At(s, steps, n, rateOk).pid == s.pid
  {
    hide Apply, Enabled, Sane, Unique;
    if n > 0 {
      RunInv(s, steps, n - 1, rateOk);
      StepInv(At(s, steps, n - 1, rateOk), steps[n - 1], rateOk);
    }
  }

  // -- the preview is taken back to where it started ----------------------------

  /** The last moment, up to `n`, without a pending preview. */
  ghost function Settled(s: State, steps: seq<Step>, n: nat, rateOk: RateParser): (k: nat)
    requires n <= |steps|
    ensures k <= n
  {
    if n == 0 || At(s, steps, n, rateOk).preview.None? then n else Settled(s, steps, n - 1, rateOk)
  }

  /** A step that takes a preview back, with the compositor's consent: the pending one is
      reverted or expires, or applying a request fails. */
  ghost predicate TakesBack(s: State, step: Step, rateOk: RateParser) {
    match step
    case Revert(token, restored) => Holds(s, token) && restored.ok
    case Expire(token, restored) => Holds(s, token) && restored.ok
    case Begin(requested, readable, attempt, rollback) =>
      Tried(s, requested, readable, rateOk) && !attempt.ok && rollback.ok
    case _ => false
  }

  /** A pending preview holds the snapshot of the last state without one, however many
      previews, failures and timers came since. */
  lemma {:induction false} PendingHoldsSnapshot(s: State, steps: seq<Step>, n: nat, rateOk: RateParser)
    requires IsRun(s, steps, rateOk) && n <= |steps|
    ensures Previous(At(s, steps, n, rateOk)) == Snapshot(At(s, steps, Settled(s, steps, n, rateOk), rateOk).live)
  {
    hide Apply, Enabled, Previous, Snapshot;
    if At(s, steps, n, rateOk).preview.None? {
      NothingPending(At(s, steps, n, rateOk));
    } else {
      assert n > 0;
      PendingHoldsSnapshot(s, steps, n - 1, rateOk);
      StepKeepsPrevious(At(s, steps, n - 1, rateOk), steps[n - 1], rateOk);
    }
  }

  lemma NothingPending(s: State)
    requires s.preview.None?
    ensures Previous(s) == Snapshot(s.live)
  {
  }

  lemma StepKeepsPrevious(s: State, step: Step, rateOk: RateParser)
    requires Apply(s, step, rateOk).preview.Some?
    ensures Previous(Apply(s, step, rateOk)) == Previous(s)
  {
    hide Tried, Acceptable, Previous, TokenText, UpsertAll;
    if step.Begin? {
      PreviousOf(Apply(s, step, rateOk));
    } else {
      assert Apply(s, step, rateOk).preview == s.preview;
      PreviousOf(s);
      PreviousOf(Apply(s, step, rateOk));
    }
  }

  lemma PreviousOf(s: State)
    requires s.preview.Some?
    ensures Previous(s) == s.preview.value.previous
  {
  }

  /** Whatever takes the preview back, the displays look as they did at the last moment
      without one, and nothing is pending any more. */
  lemma {:induction false} PreviewIsTakenBack(s: State, steps: seq<Step>, n: nat, rateOk: RateParser)
    requires IsRun(s, steps, rateOk) && n < |steps|
    requires TakesBack(At(s, steps, n, rateOk), steps[n], rateOk)
    ensures var after := At(s, steps, n + 1, rateOk);
            && after.preview.None? && after.guards == {}
            && SameView(after.live, At(s, steps, Settled(s, steps, n, rateOk), rateOk).live)
  {
    hide Acceptable, Sane, Shows, Snapshot, SameView, SameDisplays;
    var k := Settled(s, steps, n, rateOk);
    var now, base := At(s, steps, n, rateOk), At(s, steps, k, rateOk);
    PendingHoldsSnapshot(s, steps, n, rateOk);
    RunInv(s, steps, n, rateOk);
    RunInv(s, steps, n + 1, rateOk);
    RunInv(s, steps, k, rateOk);
    SameFromStart(s.live, base.live, At(s, steps, n + 1, rateOk).live);
    assert Enabled(now, steps[n]);
    SnapshotPinsLayout(base.live, At(s, steps, n + 1, rateOk).live);
  }

  lemma SameFromStart(start: seq<LiveMonitor>, a: seq<LiveMonitor>, b: seq<LiveMonitor>)
    requires SameDisplays(start, a) && SameDisplays(start, b)
    ensures SameDisplays(a, b)
  {
  }

  // -- tokens ------------------------------------------------------------------

  /** The token of the preview that a step settles. */
  predicate Settles(s: State, step: Step, token: string) {
    match step
    case Confirm(t, _) => t == token && Holds(s, token)
    case Revert(t, _) => t == token && Holds(s, token)
    case Expire(t, _) => t == token && Holds(s, token)
    case _ => false
  }

  /** The token of the `serial`-th preview was given out and its preview is over. */
  predicate Spent(s: State, serial: nat) {
    serial < s.serial && !Holds(s, TokenText(s.pid, serial))
  }

  lemma {:induction false} StepKeepsSpent(s: State, step: Step, serial: nat, rateOk: RateParser)
    requires Spent(s, serial)
    ensures Spent(Apply(s, step, rateOk), serial)
  {
    hide Acceptable, TokenText, Upsert;
    if TokenText(s.pid, s.serial) == TokenText(s.pid, serial) {
      TokensDiffer(s.pid, s.serial, serial);
    }
  }

  /** A preview that is over, settled or replaced, never comes back. */
  lemma {:induction false} SpentForever(s: State, steps: seq<Step>, i: nat, j: nat, serial: nat, rateOk: RateParser)
    requires i <= j <= |steps| && Spent(At(s, steps, i, rateOk), serial)
    ensures Spent(At(s, steps, j, rateOk), serial)
  {
    hide Apply, Spent;
    if i < j {
      SpentForever(s, steps, i, j - 1, serial, rateOk);
      StepKeepsSpent(At(s, steps, j - 1, rateOk), steps[j - 1], serial, rateOk);
    }
  }

  lemma SettlingSpends(s: State, step: Step, token: string, rateOk: RateParser) returns (serial: nat)
    requires Inv(s) && Settles(s, step, token)
    ensures token == TokenText(s.pid, serial) && Spent(Apply(s, step, rateOk), serial)
  {
    hide Acceptable, Sane, Unique, TokenText, Upsert;
    serial :| serial < s.serial && token == TokenText(s.pid, serial);
  }

  /** Confirm, revert and expiry together settle a token at most once. */
  lemma {:induction false} SettledOnce(s: State, steps: seq<Step>, i: nat, j: nat, token: string, rateOk: RateParser)
    requires IsRun(s, steps, rateOk) && i < j < |steps|
    requires Settles(At(s, steps, i, rateOk), steps[i], token)
    ensures !Settles(At(s, steps, j, rateOk), steps[j], token)
  {
    hide Apply, Inv, TokenText, Enabled, Spent, Settles;
    RunInv(s, steps, i, rateOk);
    RunInv(s, steps, i + 1, rateOk);
    RunInv(s, steps, j, rateOk);
    var serial := SettlingSpends(At(s, steps, i, rateOk), steps[i], token, rateOk);
    SpentForever(s, steps, i + 1, j, serial, rateOk);
    SpentIsNotSettled(At(s, steps, j, rateOk), steps[j], serial);
  }

  lemma SpentIsNotSettled(s: State, step: Step, serial: nat)
    requires Spent(s, serial)
    ensures !Settles(s, step, TokenText(s.pid, serial))
  {
    hide TokenText;
  }

  /** A request was tried out and the compositor took it. */
  ghost predicate Begins(s: State, step: Step, rateOk: RateParser) {
    step.Begin? && Tried(s, step.requested, step.readable, rateOk) && step.attempt.ok
  }

  /** A request was tried out and the compositor refused it. */
  ghost predicate Fails(s: State, step: Step, rateOk: RateParser) {
    step.Begin? && Tried(s, step.requested, step.readable, rateOk) && !step.attempt.ok
  }

  lemma StepEndsPreview(s: State, step: Step, rateOk: RateParser)
    requires Inv(s) && Enabled(s, step)
    ensures var before, after := s.preview, Apply(s, step, rateOk).preview;
            && (before.Some? && after.None? <==>
                  before.Some? && (Settles(s, step, before.value.token) || Fails(s, step, rateOk)))
            && (after.Some? && after != before <==> Begins(s, step, rateOk))
            && (after.Some? && after != before ==> after.value.requested == step.requested)
  {
    hide Acceptable, Previous, Honoured, Reports, Sane, TokenText, Unique, UpsertAll;
    if Begins(s, step, rateOk) && s.preview.Some? {
      var k: nat :| k < s.serial && s.preview.value.token == TokenText(s.pid, k);
      if TokenText(s.pid, s.serial) == TokenText(s.pid, k) {
        TokensDiffer(s.pid, s.serial, k);
      }
    }
  }

  /** In every run a pending preview ends exactly when it is settled by its own token or
      when another request that passed validation fails to apply; a preview is begun or
      replaced exactly by a request that passed validation and was applied. A request that
      is refused leaves the pending preview as it is. */
  lemma {:induction false} PreviewEndsOnlyWhenSettled(s: State, steps: seq<Step>, n: nat, rateOk: RateParser)
    requires IsRun(s, steps, rateOk) && n < |steps|
    ensures var now, next := At(s, steps, n, rateOk), At(s, steps, n + 1, rateOk);
            && (now.preview.Some? && next.preview.None? <==>
                  now.preview.Some? && (Settles(now, steps[n], now.preview.value.token) || Fails(now, steps[n], rateOk)))
            && (next.preview.Some? && next.preview != now.preview <==> Begins(now, steps[n], rateOk))
            && (next.preview.Some? && next.preview != now.preview ==> next.preview.value.requested == steps[n].requested)
  {
    hide Apply, Begins, Enabled, Fails, Inv, Settles;
    RunInv(s, steps, n, rateOk);
    StepEndsPreview(At(s, steps, n, rateOk), steps[n], rateOk);
  }

  /** The armed guards are exactly the pending preview's own: it will be taken back if
      nobody answers, and no other timer is left to fire. */
  lemma {:induction false} PreviewIsGuarded(s: State, steps: seq<Step>, n: nat, rateOk: RateParser)
    requires IsRun(s, steps, rateOk) && n <= |steps|
    ensures var now := At(s, steps, n, rateOk); now.guards == Pending(now)
  {
    RunInv(s, steps, n, rateOk);
  }

  /** A call or a timer with any other token changes nothing but the timer itself. */
  lemma StaleTokenIsIgnored(s: State, step: Step, token: string, rateOk: RateParser)
    requires step.Confirm? || step.Revert? || step.Expire?
    requires Inv(s) && step.token == token && !Settles(s, step, token)
    ensures Apply(s, step, rateOk) == s
  {
    hide Sane, Unique, TokenText;
    assert token !in s.guards;
    assert s.guards - {token} == s.guards;
  }

  // -- the store ---------------------------------------------------------------

  /** What a step adds to the stored settings: a confirmed or a directly set list. */
  ghost function Committed(s: State, step: Step, rateOk: RateParser): seq<MonitorSetting> {
    match step
    case Confirm(token, saved) => if Holds(s, token) && saved then s.preview.value.requested else []
    case SetMonitors(requested, readable, attempt, _, saved) =>
      if saved && (readable ==> Acceptable(requested, s.live, rateOk) && attempt.ok) then requested else []
    case _ => []
  }

  predicate Clears(step: Step) {
    step.ResetMonitors? && step.saved
  }

  /** Everything committed since the last reset, oldest first. */
  ghost function Log(s: State, steps: seq<Step>, n: nat, rateOk: RateParser): seq<MonitorSetting>
    requires n <= |steps|
  {
    if n == 0 then s.store
    else if Clears(steps[n - 1]) then []
    else Log(s, steps, n - 1, rateOk) + Committed(At(s, steps, n - 1, rateOk), steps[n - 1], rateOk)
  }

  /** The setting stored for an output. */
  function Stored(store: seq<MonitorSetting>, output: string): Option<MonitorSetting> {
    var n := IndexOf(store, output);
    if n < |store| then Some(store[n]) else None
  }

  lemma UpsertStored(store: seq<MonitorSetting>, s: MonitorSetting, output: string)
    ensures Stored(Upsert(store, s), output) == if s.output == output then Some(s) else Stored(store, output)
  {
    var i, j := IndexOf(store, s.output), IndexOf(store, output);
    var after := Upsert(store, s);
    var k := IndexOf(after, output);
    if s.output == output {
      assert after[i].output == output;
    } else if j < |store| {
      assert after[j] == store[j];
    }
  }

  /** The last setting for an output in a list wins; other outputs keep theirs. */
  lemma {:induction false} UpsertAllStored(store: seq<MonitorSetting>, list: seq<MonitorSetting>, output: string)
    ensures Stored(UpsertAll(store, list), output) ==
            if SentFor(list, output).Some? then SentFor(list, output) else Stored(store, output)
  {
    hide Upsert, Stored;
    if list != [] {
      var n := |list| - 1;
      UpsertAllStored(store, list[..n], output);
      UpsertStored(UpsertAll(store, list[..n]), list[n], output);
    }
  }

  lemma {:induction false} UpsertAllConcat(store: seq<MonitorSetting>, a: seq<MonitorSetting>, b: seq<MonitorSetting>)
    ensures UpsertAll(UpsertAll(store, a), b) == UpsertAll(store, a + b)
  {
    hide Upsert;
    if b == [] {
      assert a + b == a;
    } else {
      var n := |b| - 1;
      UpsertAllConcat(store, a, b[..n]);
      assert (a + b)[..|a| + n] == a + b[..n];
    }
  }

  lemma {:induction false} UpsertAllFresh(store: seq<MonitorSetting>)
    requires Unique(store)
    ensures UpsertAll([], store) == store
  {
    if store != [] {
      var n := |store| - 1;
      UpsertAllFresh(store[..n]);
      assert IndexOf(store[..n], store[n].output) == n;
    }
  }

  lemma StepStore(s: State, step: Step, rateOk: RateParser)
    ensures Apply(s, step, rateOk).store ==
            if Clears(step) then [] else UpsertAll(s.store, Committed(s, step, rateOk))
  {
    hide Acceptable, Upsert, Snapshot, TokenText;
  }

  /** The store is exactly what upserting everything committed since the last reset
      gives: previews that were never confirmed leave no trace. */
  lemma {:induction false} StoreIsLog(s: State, steps: seq<Step>, n: nat, rateOk: RateParser)
    requires IsRun(s, steps, rateOk) && n <= |steps|
    ensures At(s, steps, n, rateOk).store == UpsertAll([], Log(s, steps, n, rateOk))
  {
    hide Apply, UpsertAll, Committed, Enabled;
    if n == 0 {
      UpsertAllFresh(s.store);
    } else {
      StoreIsLog(s, steps, n - 1, rateOk);
      var now := At(s, steps, n - 1, rateOk);
      StepStore(now, steps[n - 1], rateOk);
      UpsertAllConcat([], Log(s, steps, n - 1, rateOk), Committed(now, steps[n - 1], rateOk));
      UpsertAllFresh([]);
    }
  }

  /** So each output has at most one stored setting, the one committed last. */
  lemma {:induction false} StoreIsLastCommitted(s: State, steps: seq<Step>, n: nat, output: string, rateOk: RateParser)
    requires IsRun(s, steps, rateOk) && n <= |steps|
    ensures Unique(At(s, steps, n, rateOk).store)
    ensures Stored(At(s, steps, n, rateOk).store, output) == SentFor(Log(s, steps, n, rateOk), output)
  {
    StoreIsLog(s, steps, n, rateOk);
    RunInv(s, steps, n, rateOk);
    UpsertAllStored([], Log(s, steps, n, rateOk), output);
  }

  // -- what is confirmed is what is seen ---------------------------------------

  /** Only previews touch the displays. */
  predicate PreviewsOnly(steps: seq<Step>) {
    forall i | 0 <= i < |steps| :: steps[i].Begin? || steps[i].Confirm? || steps[i].Revert? || steps[i].Expire?
  }

  ghost predicate PendingShown(s: State) {
    s.preview.Some? ==> Shows(s.preview.value.requested, s.live)
  }

  lemma StepShown(s: State, step: Step, rateOk: RateParser)
    requires PendingShown(s) && Enabled(s, step) && PreviewsOnly([step])
    ensures PendingShown(Apply(s, step, rateOk))
  {
    hide Acceptable, Reports, Shows, Snapshot, Upsert, TokenText;
    assert [step][0] == step;
  }

  lemma {:induction false} PendingIsShown(s: State, steps: seq<Step>, n: nat, rateOk: RateParser)
    requires IsRun(s, steps, rateOk) && n <= |steps| && PreviewsOnly(steps)
    ensures PendingShown(At(s, steps, n, rateOk))
  {
    hide Apply, Enabled, PendingShown;
    if n == 0 {
      NothingShown(s);
    } else {
      PendingIsShown(s, steps, n - 1, rateOk);
      StepShown(At(s, steps, n - 1, rateOk), steps[n - 1], rateOk);
    }
  }

  lemma NothingShown(s: State)
    requires s.preview.None?
    ensures PendingShown(s)
  {
  }

  /** After a saved confirmation, each display that the confirmed list speaks of shows
      the setting that is stored for it. */
  lemma {:induction false} ConfirmedIsShown(s: State, steps: seq<Step>, n: nat, i: nat, rateOk: RateParser)
    requires IsRun(s, steps, rateOk) && n < |steps| && PreviewsOnly(steps)
    requires steps[n].Confirm? && steps[n].saved && Holds(At(s, steps, n, rateOk), steps[n].token)
    requires i < |At(s, steps, n, rateOk).live|
    requires exists r | r in At(s, steps, n, rateOk).preview.value.requested :: r.output == At(s, steps, n, rateOk).live[i].name
    ensures var after := At(s, steps, n + 1, rateOk);
            && i < |after.live|
            && var stored := Stored(after.store, after.live[i].name);
               stored.Some? && ShowsOne(stored.value, after.live[i])
  {
    hide Acceptable, Sane, Snapshot, Upsert, ShowsOne, Enabled, Stored;
    var now := At(s, steps, n, rateOk);
    var requested, name := now.preview.value.requested, now.live[i].name;
    PendingIsShown(s, steps, n, rateOk);
    SentSome(requested, name);
    UpsertAllStored(now.store, requested, name);
  }

  lemma {:induction false} SentSome(requested: seq<MonitorSetting>, name: string)
    requires exists r | r in requested :: r.output == name
    ensures SentFor(requested, name).Some?
  {
    var n := |requested| - 1;
    if requested[n].output != name {
      var r :| r in requested && r.output == name;
      assert r in requested[..n];
      SentSome(requested[..n], name);
    }
  }

  // -- what is shown is safe ---------------------------------------------------

  /** Nothing is left to the compositor: the display is off, or its place is given in
      numbers. Keywords such as `preferred` and `auto` leave it to the compositor. */
  predicate Concrete(s: MonitorSetting) {
    s.disabled
    || (&& s.mode.Some? && ParseSize(SizePart(s.mode.value)).Some?
        && s.position.Some? && ParsePoint(s.position.value).Some?
        && s.scale.Some? && s.transform.Some?)
  }

  /** Every display has a concrete request of its own. */
  predicate SpellsOut(requested: seq<MonitorSetting>, live: seq<LiveMonitor>) {
    && (forall i | 0 <= i < |requested| :: Concrete(requested[i]))
    && (forall i | 0 <= i < |live| :: SentFor(requested, live[i].name).Some?)
  }

  /** The displays as they are: some are on, and none overlap by more than a pixel both ways. */
  ghost predicate Safe(live: seq<LiveMonitor>) {
    var layout := ResolveLayout([], live);
    SomeEnabled(layout) && NoClash(layout) && NoOverlap(layout)
  }

  /** A display that shows a concrete request is where the validator expected it. */
  lemma ShownIsResolved(s: MonitorSetting, before: LiveMonitor, after: LiveMonitor)
    requires Concrete(s) && ShowsOne(s, after) && before.name == after.name
    ensures var a, b := ResolveOne(None, after), ResolveOne(Some(s), before);
            a.name == b.name && a.disabled == b.disabled && (a.disabled || a == b)
  {
    hide ParseSize, ParsePoint, SizePart, Hertz, Logical, MinPositive, Round;
  }

  lemma {:induction false} SentIsFound(requested: seq<MonitorSetting>, live: seq<LiveMonitor>, name: string, rateOk: RateParser)
    requires SettingsOk(requested, |requested|, live, rateOk) && Trim(name) == name && SentFor(requested, name).Some?
    ensures SettingFor(requested, name) == SentFor(requested, name)
  {
    SentIsIn(requested, name);
    hide SettingOk, Trim;
    var sent, found := SentFor(requested, name).value, SettingFor(requested, name);
    var i :| 0 <= i < |requested| && requested[i] == sent;
    assert Trim(requested[i].output) == name;
    var k :| 0 <= k < |requested| && requested[k] == found.value;
  }

  /** Whatever the compositor makes of an accepted request that spells out every display,
      as long as it shows it, some display is on and none overlap. */
  lemma {:induction false} AcceptedIsShownSafe(requested: seq<MonitorSetting>, before: seq<LiveMonitor>, applied: Applied, rateOk: RateParser)
    requires PlainNames(before) && Acceptable(requested, before, rateOk) && SpellsOut(requested, before)
    requires Honoured(before, requested, applied) && applied.ok
    ensures Safe(applied.after)
  {
    var a, b := ResolveLayout([], applied.after), ResolveLayout(requested, before);
    ShownLayout(requested, before, applied.after, rateOk);
    hide Acceptable, FitsAll, NoClash, NoOverlap, NoFalseAlarm, ResolveLayout, SameLayout, SomeEnabled;
    SameLayoutSameSafety(a, b);
    LiveLayoutFits(applied.after);
    NoClashNoOverlap(a);
    AcceptedParts(requested, before, rateOk);
  }

  lemma AcceptedParts(requested: seq<MonitorSetting>, live: seq<LiveMonitor>, rateOk: RateParser)
    requires Acceptable(requested, live, rateOk)
    ensures SomeEnabled(ResolveLayout(requested, live)) && NoClash(ResolveLayout(requested, live))
  {
  }

  lemma {:induction false} ShownLayout(requested: seq<MonitorSetting>, before: seq<LiveMonitor>, after: seq<LiveMonitor>, rateOk: RateParser)
    requires PlainNames(before) && Acceptable(requested, before, rateOk) && SpellsOut(requested, before)
    requires SameDisplays(before, after) && Shows(requested, after)
    ensures SameLayout(ResolveLayout([], after), ResolveLayout(requested, before))
  {
    forall i | 0 <= i < |before|
      ensures var a, b := ResolveLayout([], after)[i], ResolveLayout(requested, before)[i];
              a.name == b.name && a.disabled == b.disabled && (a.disabled || a == b) {
      hide Concrete, NoClash, ResolveOne, SettingFor, SettingsOk, ShowsOne, SentFor, SomeEnabled, Trim;
      var sent := SentFor(requested, before[i].name);
      SentIsFound(requested, before, before[i].name, rateOk);
      SentIsIn(requested, before[i].name);
      NoRequest(after[i].name);
      ShownIsResolved(sent.value, before[i], after[i]);
    }
  }

  lemma {:induction false} LiveLayoutFits(live: seq<LiveMonitor>)
    requires Sane(live)
    ensures FitsAll(ResolveLayout([], live))
  {
    hide ResolveOne;
    forall i | 0 <= i < |live| ensures Fits(ResolveLayout([], live)[i]) {
      NoRequest(live[i].name);
      ResolvedFits(None, live[i]);
    }
  }

  /** In every run: once a preview is applied that spells out every display, the displays
      are safe. */
  lemma {:induction false} BegunIsSafe(s: State, steps: seq<Step>, n: nat, rateOk: RateParser)
    requires IsRun(s, steps, rateOk) && n < |steps| && steps[n].Begin? && steps[n].attempt.ok
    requires Tried(At(s, steps, n, rateOk), steps[n].requested, steps[n].readable, rateOk)
    requires PlainNames(At(s, steps, n, rateOk).live) && SpellsOut(steps[n].requested, At(s, steps, n, rateOk).live)
    ensures Safe(At(s, steps, n + 1, rateOk).live)
  {
    hide Acceptable, PlainNames, Previous, Safe, SpellsOut, TokenText, Upsert;
    var now := At(s, steps, n, rateOk);
    assert Enabled(now, steps[n]);
    AcceptedIsShownSafe(steps[n].requested, now.live, steps[n].attempt, rateOk);
  }

  lemma SameViewResolves(a: LiveMonitor, b: LiveMonitor)
    requires SameViewOne(a, b)
    ensures var x, y := ResolveOne(None, a), ResolveOne(None, b);
            x.name == y.name && x.disabled == y.disabled && (x.disabled || x == y)
  {
    hide Logical, MinPositive, Round;
  }

  lemma {:induction false} SameViewSafe(a: seq<LiveMonitor>, b: seq<LiveMonitor>)
    requires SameView(a, b) && Sane(a) && Sane(b)
    ensures Safe(a) <==> Safe(b)
  {
    hide FitsAll, NoClash, NoOverlap, NoFalseAlarm, ResolveOne, Sane, SameViewOne, SomeEnabled;
    var x, y := ResolveLayout([], a), ResolveLayout([], b);
    forall i | 0 <= i < |a| ensures x[i].name == y[i].name && x[i].disabled == y[i].disabled && (x[i].disabled || x[i] == y[i]) {
      NoRequest(a[i].name);
      NoRequest(b[i].name);
      SameViewResolves(a[i], b[i]);
    }
    SameLayoutSameSafety(x, y);
  }

  /** Taking a preview back leads to safe displays iff they were safe before it. */
  lemma {:induction false} TakenBackIsSafe(s: State, steps: seq<Step>, n: nat, rateOk: RateParser)
    requires IsRun(s, steps, rateOk) && n < |steps|
    requires TakesBack(At(s, steps, n, rateOk), steps[n], rateOk)
    ensures Safe(At(s, steps, n + 1, rateOk).live) <==> Safe(At(s, steps, Settled(s, steps, n, rateOk), rateOk).live)
  {
    hide Apply, Enabled, IsRun, Safe, SameView, Sane, TakesBack;
    var k := Settled(s, steps, n, rateOk);
    PreviewIsTakenBack(s, steps, n, rateOk);
    RunInv(s, steps, n + 1, rateOk);
    RunInv(s, steps, k, rateOk);
    SameViewSafe(At(s, steps, n + 1, rateOk).live, At(s, steps, k, rateOk).live);
  }

  // -- the assumptions can be met ----------------------------------------------

  /** A display that does what it is told, and picks a size where it has none. */
  function TakeOver(s: MonitorSetting, m: LiveMonitor): LiveMonitor {
    if s.disabled then m.(disabled := true)
    else
      var size := ResolvedSize(Some(s), m);
      var point := ResolvedPoint(Some(s), m);
      var rate := if s.mode.Some? then Hertz(s.mode.value) else None;
      m.(width := Max(size.0, 1), height := Max(size.1, 1), x := point.0, y := point.1,
         refreshRate := if rate.Some? then rate.value as real else m.refreshRate,
         scale := if s.scale.Some? then s.scale.value else if m.scale > 0.0 then m.scale else 1.0,
         transform := ResolvedTransform(Some(s), m),
         vrr := if m.vrr.Some? && s.vrr.Some? then Some(s.vrr.value != 0) else m.vrr,
         disabled := false)
  }

  lemma SizeFits(text: string)
    ensures var size := ParseSize(text);
            size.Some? ==> 0 < size.value.0 <= I64_MAX && 0 < size.value.1 <= I64_MAX
  {
    hide Trim, SplitOnce;
  }

  lemma HertzFits(mode: string)
    ensures Hertz(mode).Some? ==> IsI64(Hertz(mode).value)
  {
    hide SplitOnce;
  }

  lemma TakeOverShows(s: MonitorSetting, m: LiveMonitor)
    requires SaneOne(m) && (!s.disabled && s.scale.Some? ==> s.scale.value > 0.0)
    ensures var t := TakeOver(s, m); ShowsOne(s, t) && SaneOne(t) && t.name == m.name && t.vrr.Some? == m.vrr.Some?
  {
    if s.mode.Some? {
      SizeFits(SizePart(s.mode.value));
      HertzFits(s.mode.value);
    }
    if s.position.Some? {
      PointFits(s.position.value);
    }
    hide ParseSize, ParsePoint, SizePart, Hertz;
  }

  function TakeOverAll(requested: seq<MonitorSetting>, live: seq<LiveMonitor>): (after: seq<LiveMonitor>)
    ensures |after| == |live|
    ensures forall i | 0 <= i < |live| ::
              var sent := SentFor(requested, live[i].name);
              after[i] == if sent.Some? then TakeOver(sent.value, live[i]) else live[i]
  {
    if live == [] then []
    else
      var n := |live| - 1;
      var sent := SentFor(requested, live[n].name);
      TakeOverAll(requested, live[..n]) + [if sent.Some? then TakeOver(sent.value, live[n]) else live[n]]
  }

  lemma {:induction false} SentIsIn(requested: seq<MonitorSetting>, name: string)
    ensures var sent := SentFor(requested, name); sent.Some? ==> sent.value in requested && sent.value.output == name
  {
    if requested != [] {
      SentIsIn(requested[..|requested| - 1], name);
    }
  }

  lemma {:induction false} OneCanBeShown(requested: seq<MonitorSetting>, m: LiveMonitor, live: seq<LiveMonitor>,
                                         rateOk: RateParser)
    requires SaneOne(m) && SettingsOk(requested, |requested|, live, rateOk)
    ensures var sent := SentFor(requested, m.name);
            var t := if sent.Some? then TakeOver(sent.value, m) else m;
            SaneOne(t) && t.name == m.name && t.vrr.Some? == m.vrr.Some? && (sent.Some? ==> ShowsOne(sent.value, t))
  {
    hide ShowsOne, SaneOne, SettingsOk, TakeOver;
    var sent := SentFor(requested, m.name);
    SentIsIn(requested, m.name);
    if sent.Some? {
      ScaleIsPositive(requested, sent.value, live, rateOk);
      TakeOverShows(sent.value, m);
    }
  }

  /** What is asked of the compositor can be done: every accepted request can be shown. */
  lemma {:induction false} AcceptedCanBeShown(requested: seq<MonitorSetting>, live: seq<LiveMonitor>, rateOk: RateParser)
    requires Sane(live) && Acceptable(requested, live, rateOk)
    ensures Honoured(live, requested, Applied(true, TakeOverAll(requested, live)))
  {
    hide ResolveLayout, ShowsOne, SaneOne, SentFor, SettingsOk, TakeOver, NoClash, SomeEnabled;
    var after := TakeOverAll(requested, live);
    forall i | 0 <= i < |live|
      ensures SaneOne(after[i]) && after[i].name == live[i].name && after[i].vrr.Some? == live[i].vrr.Some?
      ensures var sent := SentFor(requested, live[i].name); sent.Some? ==> ShowsOne(sent.value, after[i]) {
      OneCanBeShown(requested, live[i], live, rateOk);
    }
  }

  lemma ScaleIsPositive(requested: seq<MonitorSetting>, s: MonitorSetting, live: seq<LiveMonitor>, rateOk: RateParser)
    requires SettingsOk(requested, |requested|, live, rateOk) && s in requested
    ensures !s.disabled && s.scale.Some? ==> s.scale.value > 0.0
  {
    hide Trim, CheckMode, CheckPosition;
  }

  // -- the module's own state --------------------------------------------------

  /** The stored settings while a list is merged into them. */
  class Store {
    var monitors: seq<MonitorSetting>

    constructor Load(disk: seq<MonitorSetting>)
      ensures monitors == disk
    {
      monitors := disk;
    }

    method UpsertMonitor(setting: MonitorSetting)
      modifies this
      ensures monitors == Upsert(old(monitors), setting)
    {
      var i := 0;
      while i < |monitors| && monitors[i].output != setting.output
        invariant i <= |monitors| && monitors == old(monitors)
        invariant forall k | 0 <= k < i :: monitors[k].output != setting.output
      {
        i := i + 1;
      }
      if i < |monitors| {
        monitors := monitors[i := setting];
      } else {
        monitors := monitors + [setting];
      }
    }
  }

  datatype PreviewError =
    | NoMonitors
    | Unreadable
    | Invalid(error: LayoutError)
    | ApplyFailed
    | NotFound
    | NotSaved

  /** The module together with the compositor and the store file it works on. The
      answers of both come in as parameters. */
  class Hypr {
    var live: seq<LiveMonitor>
    var store: seq<MonitorSetting>
    var preview: Option<Preview>
    var guards: set<string>
    var serial: nat
    const pid: nat

    function View(): State
      reads this
    {
      State(live, store, preview, guards, pid, serial)
    }

    constructor (live: seq<LiveMonitor>, store: seq<MonitorSetting>, pid: nat)
      ensures View() == State(live, store, None, {}, pid, 1)
    {
      this.live := live;
      this.store := store;
      this.pid := pid;
      preview := None;
      guards := {};
      serial := 1;
    }

    method ApplyLive(answer: Applied) returns (ok: bool)
      modifies this`live
      ensures ok == answer.ok && live == answer.after
    {
      live := answer.after;
      return answer.ok;
    }

    method NextToken() returns (token: string)
      modifies this`serial
      ensures token == TokenText(pid, old(serial)) && serial == old(serial) + 1
    {
      token := TokenText(pid, serial);
      serial := serial + 1;
    }

    method PersistMonitors(list: seq<MonitorSetting>, saved: bool)
      modifies this`store
      ensures store == if saved then UpsertAll(old(store), list) else old(store)
    {
      var file := new Store.Load(store);
      var i := 0;
      while i < |list|
        invariant i <= |list| && file.monitors == UpsertAll(store, list[..i])
        modifies file
      {
        assert list[..i + 1][..i] == list[..i];
        file.UpsertMonitor(list[i]);
        i := i + 1;
      }
      assert list[..i] == list;
      if saved {
        store := file.monitors;
      }
    }

    method BeginPreview(requested: seq<MonitorSetting>, readable: bool,
                        attempt: Applied, rollback: Applied, rateOk: RateParser)
      returns (r: Result<string, PreviewError>)
      modifies this
      ensures View() == BeginStep(old(View()), requested, readable, attempt, rollback, rateOk)
      ensures r.Ok? <==> Tried(old(View()), requested, readable, rateOk) && attempt.ok
      ensures r.Ok? ==> Holds(View(), r.value)
      ensures r == Err(ApplyFailed) <==> Tried(old(View()), requested, readable, rateOk) && !attempt.ok
      ensures r.Err? && r.error != ApplyFailed ==> View() == old(View())
      ensures r == Err(ApplyFailed) ==>
                live == rollback.after && preview.None? && guards == old(guards) - Pending(old(View())) && store == old(store)
      ensures r.Ok? ==>
                && live == attempt.after && store == old(store)
                && preview == Some(Preview(r.value, Previous(old(View())), requested))
                && guards == old(guards) - Pending(old(View())) + {r.value}
    {
      hide Acceptable, CheckSetting, NoClash, Outputs, ResolveLayout, Snapshot, SomeEnabled, TokenText;
      if requested == [] {
        return Err(NoMonitors);
      }
      if !readable {
        return Err(Unreadable);
      }
      var valid := ValidateLayout(requested, live, rateOk);
      if valid.Err? {
        return Err(Invalid(valid.error));
      }
      var previous;
      if preview.Some? {
        guards := guards - {preview.value.token};
        previous := preview.value.previous;
      } else {
        previous := Snapshot(live);
      }
      preview := None;
      var applied := ApplyLive(attempt);
      if !applied {
        var _ := ApplyLive(rollback);
        return Err(ApplyFailed);
      }
      var token := NextToken();
      guards := guards + {token};
      preview := Some(Preview(token, previous, requested));
      return Ok(token);
    }

    /** `take_preview`: the pending preview, if it has this token, and its guard are gone. */
    method TakePreview(token: string) returns (r: Option<Preview>)
      modifies this`preview, this`guards
      ensures r == if Holds(old(View()), token) then old(preview) else None
      ensures preview == if Holds(old(View()), token) then None else old(preview)
      ensures guards == if Holds(old(View()), token) then old(guards) - {token} else old(guards)
    {
      if preview.None? || preview.value.token != token {
        return None;
      }
      r := preview;
      preview := None;
      guards := guards - {token};
    }

    method ConfirmPreview(token: string, saved: bool) returns (r: Result<seq<MonitorSetting>, PreviewError>)
      modifies this
      ensures View() == ConfirmStep(old(View()), token, saved)
      ensures live == old(live) && (r == Err(NotFound) <==> !Holds(old(View()), token))
      ensures r == Err(NotFound) ==> View() == old(View())
      ensures r != Err(NotFound) ==> preview.None? && guards == old(guards) - {token}
      ensures store == if r.Ok? then UpsertAll(old(store), old(preview).value.requested) else old(store)
      ensures r == if !Holds(old(View()), token) then Err(NotFound) else if saved then Ok(store) else Err(NotSaved)
    {
      var taken := TakePreview(token);
      if taken.None? {
        return Err(NotFound);
      }
      PersistMonitors(taken.value.requested, saved);
      return if saved then Ok(store) else Err(NotSaved);
    }

    method RevertPreview(token: string, restored: Applied) returns (r: Result<seq<MonitorSetting>, PreviewError>)
      modifies this
      ensures View() == RevertStep(old(View()), token, restored)
      ensures store == old(store) && (r == Err(NotFound) ==> View() == old(View()))
      ensures r != Err(NotFound) ==> live == restored.after && preview.None? && guards == old(guards) - {token}
      ensures r ==
              if !Holds(old(View()), token) then Err(NotFound)
              else if restored.ok then Ok(Previous(old(View())))
              else Err(ApplyFailed)
    {
      var taken := TakePreview(token);
      if taken.None? {
        return Err(NotFound);
      }
      var applied := ApplyLive(restored);
      return if applied then Ok(taken.value.previous) else Err(ApplyFailed);
    }

    method ExpirePreview(token: string, restored: Applied)
      modifies this
      ensures View() == ExpireStep(old(View()), token, restored)
      ensures guards == old(guards) - {token} && store == old(store)
      ensures if Holds(old(View()), token) then live == restored.after && preview.None?
              else live == old(live) && preview == old(preview)
    {
      guards := guards - {token};
      if preview.None? || preview.value.token != token {
        return;
      }
      preview := None;
      var _ := ApplyLive(restored);
    }

    method SetMonitors(requested: seq<MonitorSetting>, readable: bool,
                       attempt: Applied, rollback: Applied, saved: bool, rateOk: RateParser)
      returns (r: Result<seq<MonitorSetting>, PreviewError>)
      modifies this
      ensures View() == SetStep(old(View()), requested, readable, attempt, rollback, saved, rateOk)
      ensures r.Ok? ==> saved && r.value == store && store == UpsertAll(old(store), requested)
      ensures r.Err? ==> store == old(store)
      ensures preview == old(preview) && guards == old(guards) && serial == old(serial)
      ensures (r.Ok? || r == Err(NotSaved)) ==> live == if readable then attempt.after else old(live)
      ensures r == Err(ApplyFailed) ==> live == rollback.after
      ensures r.Err? && r.error != ApplyFailed && r.error != NotSaved ==> View() == old(View())
    {
      if requested == [] {
        return Err(NoMonitors);
      }
      if readable {
        var valid := ValidateLayout(requested, live, rateOk);
        if valid.Err? {
          return Err(Invalid(valid.error));
        }
        var applied := ApplyLive(attempt);
        if !applied {
          var _ := ApplyLive(rollback);
          return Err(ApplyFailed);
        }
      }
      PersistMonitors(requested, saved);
      return if saved then Ok(store) else Err(NotSaved);
    }

    method ResetMonitors(saved: bool, reloaded: seq<LiveMonitor>)
      modifies this
      ensures View() == ResetStep(old(View()), saved, reloaded)
      ensures preview == old(preview) && guards == old(guards)
      ensures if saved then store == [] && live == reloaded else store == old(store) && live == old(live)
    {
      if saved {
        store := [];
        live := reloaded;
      }
    }
  }
}
