/** Any number of sessions, each opened on what the one before left and each ended by a
    crash at any file step. */
module ClipboardSessions {
  import opened Basics
  import opened ClipboardModel
  import opened ClipboardLists
  import opened ClipboardInvariant
  import opened ClipboardCrash

  /** Operations that ran to their end, and one that got as far as `reached` file steps. */
  datatype Session = Session(done: seq<Op>, last: Op, reached: nat)

  /** Disk and memory after operations that ran to their end. */
  function Work(d: Disk, m: Memory, ops: seq<Op>): (Disk, Memory) {
    if ops == [] then (d, m)
    else
      var n := |ops| - 1;
      var (e, k) := Work(d, m, ops[..n]);
      (ApplySteps(e, Perform(k, ops[n]).steps), Perform(k, ops[n]).memory)
  }

  function Reached(m: Memory, s: Session): (n: nat)
    ensures n <= |Perform(m, s.last).steps|
  {
    if s.reached <= |Perform(m, s.last).steps| then s.reached else |Perform(m, s.last).steps|
  }

  /** What a session leaves on disk. */
  function Crash(d: Disk, s: Session): Disk {
    var (e, m) := Work(d, Open(d), s.done);
    ApplySteps(e, Perform(m, s.last).steps[..Reached(m, s)])
  }

  function After(d: Disk, sessions: seq<Session>): Disk {
    if sessions == [] then d
    else
      var n := |sessions| - 1;
      Crash(After(d, sessions[..n]), sessions[n])
  }

  /** Some operation wrote the index. */
  predicate Saves(d: Disk, m: Memory, ops: seq<Op>) {
    if ops == [] then false
    else
      var n := |ops| - 1;
      Saves(d, m, ops[..n]) || Perform(Work(d, m, ops[..n]).1, ops[n]).steps != []
  }

  /** An index that is sound as a list, whatever blobs are there. */
  predicate SoundIndex(index: seq<Entry>) {
    Sound(Memory(index, MaxId(index) + 1))
  }

  lemma SoundIndexOpens(d: Disk)
    requires SoundIndex(d.index)
    ensures Sound(Open(d)) && Opens(d, Open(d))
  {
    SoundKept(Memory(d.index, MaxId(d.index) + 1), d.blobs.Keys);
  }

  lemma SoundMemoryIndex(m: Memory)
    requires Sound(m)
    ensures SoundIndex(m.entries)
  {
  }

  lemma NoStepsNoChange(m: Memory, op: Op)
    requires Perform(m, op).steps == []
    ensures Perform(m, op) == Outcome(m, [])
  {
  }

  /** A crash leaves the old index or the new one. */
  lemma {:induction false} IndexAt(d: Disk, m: Memory, op: Op, n: nat)
    requires Sound(m) && n <= |Perform(m, op).steps|
    ensures var crashed := ApplySteps(d, Perform(m, op).steps[..n]);
            crashed.index == d.index || crashed.index == Perform(m, op).memory.entries
  {
    var outcome := Perform(m, op);
    if Inserts(m, op) {
      var e := NewEntry(m, op.kind, op.mime, op.data, op.time);
      InsertsIs(m, op);
      InsertingSteps(m, e, op.data);
      hide Inserting, Perform, Dropped, Trimmed, Sound;
      InsertingPrefix(d, m, e, op.data, n);
    } else {
      var gone := ChangeSteps(m, op);
      hide Inserts, Perform, Rewrite, Sound;
      if outcome != Outcome(m, []) {
        RewritePrefix(d, gone, outcome.memory.entries, n);
      } else {
        assert outcome.steps[..n] == [];
      }
    }
  }

  /** During a session the list is what opening would find; until the first save disk and
      memory are as they were opened, and from then on the index is up to date. */
  lemma {:induction false} WorkKeeps(d: Disk, ops: seq<Op>)
    requires SoundIndex(d.index)
    ensures var (e, m) := Work(d, Open(d), ops);
            && Sound(m) && Opens(e, m) && SoundIndex(e.index)
            && (if Saves(d, Open(d), ops) then Covers(e, m) else e == d && m == Open(d))
  {
    hide Covers, Open, Opens, Perform, Sound, SoundIndex;
    SoundIndexOpens(d);
    if ops != [] {
      var n := |ops| - 1;
      var (e, m) := Work(d, Open(d), ops[..n]);
      var outcome := Perform(m, ops[n]);
      WorkKeeps(d, ops[..n]);
      if outcome.steps == [] {
        NoStepsNoChange(m, ops[n]);
      } else {
        SavingCovers(e, m, ops[n]);
        OperationsKeepSound(m, ops[n]);
        CoversOpens(ApplySteps(e, outcome.steps), outcome.memory);
        CoveredIndex(ApplySteps(e, outcome.steps), outcome.memory);
      }
    }
  }

  lemma CoveredIndex(d: Disk, m: Memory)
    requires Sound(m) && Covers(d, m)
    ensures SoundIndex(d.index)
  {
    SoundMemoryIndex(m);
  }

  lemma {:induction false} CrashKeepsIndex(d: Disk, s: Session)
    requires SoundIndex(d.index)
    ensures SoundIndex(Crash(d, s).index)
  {
    hide Covers, Open, Opens, Perform, Sound, SoundIndex;
    var (e, m) := Work(d, Open(d), s.done);
    WorkKeeps(d, s.done);
    IndexAt(e, m, s.last, Reached(m, s));
    OperationsKeepSound(m, s.last);
    SoundMemoryIndex(Perform(m, s.last).memory);
  }

  /** However many sessions crashed, the store opens soundly. */
  lemma {:induction false} AlwaysOpensSound(d: Disk, sessions: seq<Session>)
    requires SoundIndex(d.index)
    ensures SoundIndex(After(d, sessions).index) && Sound(Open(After(d, sessions)))
  {
    hide Crash, Open, Sound, SoundIndex;
    if sessions != [] {
      var n := |sessions| - 1;
      AlwaysOpensSound(d, sessions[..n]);
      CrashKeepsIndex(After(d, sessions[..n]), sessions[n]);
    }
    SoundIndexOpens(After(d, sessions));
  }

  /** Every crash of every session is recovered from, with one exception: nothing has been
      saved since the store was opened, the index lists the next id, and the new blob is
      in place but the new index is not. */
  lemma {:induction false} EveryCrashRecovers(d: Disk, sessions: seq<Session>, s: Session)
    requires SoundIndex(d.index)
    ensures var found := After(d, sessions);
            var (e, m) := Work(found, Open(found), s.done);
            var n := Reached(m, s);
            && (Recovered(e, m, Perform(m, s.last).memory.entries, Payload(s.last), Crash(found, s))
                <==> !Resurrects(e, m, s.last, n) || Rejoins(e, m, s.last, n))
            && (Resurrects(e, m, s.last, n) ==> !Saves(found, Open(found), s.done))
  {
    hide Covers, Open, Opens, Perform, Recovered, Rejoins, Sound, SoundIndex;
    AlwaysOpensSound(d, sessions);
    var found := After(d, sessions);
    var (e, m) := Work(found, Open(found), s.done);
    WorkKeeps(found, s.done);
    CrashRecovery(e, m, s.last, Reached(m, s));
    if Saves(found, Open(found), s.done) {
      NextIdIsNew(e, m);
    }
  }

  lemma NextIdIsNew(d: Disk, m: Memory)
    requires Sound(m) && Covers(d, m)
    ensures m.nextId !in Ids(d.index)
  {
  }
}
