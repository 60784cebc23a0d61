/** Crash recovery of the clipboard history: what `open` finds after the daemon died
    between any two file steps of an operation. */
module ClipboardCrash {
  import opened Basics
  import opened ClipboardModel
  import opened ClipboardLists
  import opened ClipboardInvariant

  // -- running file steps ------------------------------------------------------

  lemma {:induction false} ApplyConcat(d: Disk, a: seq<FileStep>, b: seq<FileStep>)
    ensures ApplySteps(d, a + b) == ApplySteps(ApplySteps(d, a), b)
    decreases |b|
  {
    if b == [] {
      assert a + b == a;
    } else {
      var n := |b| - 1;
      assert (a + b)[..|a + b| - 1] == a + b[..n];
      ApplyConcat(d, a, b[..n]);
    }
  }

  lemma ApplyOne(d: Disk, step: FileStep)
    ensures ApplySteps(d, [step]) == ApplyStep(d, step)
  {
    assert [step][..0] == [];
  }

  lemma ApplyTwo(d: Disk, a: FileStep, b: FileStep)
    ensures ApplySteps(d, [a, b]) == ApplyStep(ApplyStep(d, a), b)
  {
    assert [a, b][..1] == [a];
    ApplyOne(d, a);
  }

  lemma WithoutOneMore(blobs: map<nat, Bytes>, ids: set<nat>, id: nat)
    ensures blobs - ids - {id} == blobs - (ids + {id})
  {
  }

  lemma {:induction false} ApplyRemovals(d: Disk, ids: seq<nat>)
    ensures ApplySteps(d, Removals(ids)) == d.(blobs := d.blobs - AsSet(ids))
  {
    if ids == [] {
      assert d.blobs - AsSet(ids) == d.blobs;
    } else {
      var n := |ids| - 1;
      ApplyRemovals(d, ids[..n]);
      assert Removals(ids)[..n] == Removals(ids[..n]);
      assert AsSet(ids) == AsSet(ids[..n]) + {ids[n]} by {
        assert ids == ids[..n] + [ids[n]];
      }
      WithoutOneMore(d.blobs, AsSet(ids[..n]), ids[n]);
    }
  }

  lemma {:induction false} RemovalsPrefix(ids: seq<nat>, n: nat)
    requires n <= |ids|
    ensures Removals(ids)[..n] == Removals(ids[..n])
  {
    if n < |ids| {
      var k := |ids| - 1;
      RemovalsPrefix(ids[..k], n);
      assert ids[..k][..n] == ids[..n];
      assert Removals(ids)[..k] == Removals(ids[..k]);
      assert Removals(ids)[..n] == Removals(ids[..k])[..n];
    } else {
      assert ids[..n] == ids;
    }
  }

  /** Removals of `gone`, then the new index. */
  function Rewrite(gone: seq<nat>, entries: seq<Entry>): seq<FileStep> {
    Removals(gone) + Save(entries)
  }

  /** The disk after the first `n` of those steps: some blobs removed, or all of them
      and the new index in place. */
  lemma RewritePrefix(d: Disk, gone: seq<nat>, entries: seq<Entry>, n: nat)
    requires n <= |Rewrite(gone, entries)|
    ensures ApplySteps(d, Rewrite(gone, entries)[..n]) ==
            if n < |gone| then d.(blobs := d.blobs - AsSet(gone[..n]))
            else Disk(if n == |gone| + 2 then entries else d.index, d.blobs - AsSet(gone))
  {
    var steps := Rewrite(gone, entries);
    if n <= |gone| {
      assert steps[..n] == Removals(gone)[..n];
      RemovalsPrefix(gone, n);
      ApplyRemovals(d, gone[..n]);
      if n == |gone| {
        assert gone[..n] == gone;
      }
    } else {
      var rest := Save(entries)[..n - |gone|];
      assert steps[..n] == Removals(gone) + rest;
      ApplyConcat(d, Removals(gone), rest);
      ApplyRemovals(d, gone);
      SavePrefix(ApplySteps(d, Removals(gone)), entries, n - |gone|);
    }
  }

  lemma SavePrefix(d: Disk, entries: seq<Entry>, n: nat)
    requires n <= 2
    ensures ApplySteps(d, Save(entries)[..n]) == if n == 2 then d.(index := entries) else d
  {
    var steps := Save(entries)[..n];
    if n == 1 {
      assert steps == [WriteTemporary];
      ApplyOne(d, WriteTemporary);
    } else if n == 2 {
      assert steps == [WriteTemporary, RenameIndex(entries)];
      ApplyTwo(d, WriteTemporary, RenameIndex(entries));
    }
  }

  // -- recovery ----------------------------------------------------------------

  /** The content each listed entry should have: the one it had, or the added one. */
  function OwnContent(d: Disk, m: Memory, added: Bytes, id: nat): Bytes {
    if id in Ids(m.entries) && id in d.blobs then d.blobs[id] else added
  }

  /** `open` finds the new list, or a sublist of the old one with everything the two
      share; and every listed entry's blob holds that entry's own content. */
  predicate Recovered(d: Disk, m: Memory, next: seq<Entry>, added: Bytes, crashed: Disk) {
    var found := Open(crashed).entries;
    && (found == next
        || (found == Kept(m.entries, Ids(found)) && Ids(m.entries) * Ids(next) <= Ids(found)))
    && (forall e | e in found :: e.id in crashed.blobs && crashed.blobs[e.id] == OwnContent(d, m, added, e.id))
  }

  /** Memory is what opening the disk would find; the index may list more. */
  predicate Opens(d: Disk, m: Memory) {
    m.entries == Open(d).entries
  }

  lemma CoversOpens(d: Disk, m: Memory)
    requires Covers(d, m)
    ensures Opens(d, m)
  {
    KeptAll(m.entries, d.blobs.Keys);
  }

  /** The old index is still in place, no blob came for a listed entry that had none, and
      the shared blobs are still there. */
  lemma OldIndexRecovers(d: Disk, m: Memory, next: seq<Entry>, added: Bytes, crashed: Disk)
    requires Opens(d, m) && crashed.index == d.index
    requires forall id | id in Ids(d.index) && id in crashed.blobs :: id in d.blobs && crashed.blobs[id] == d.blobs[id]
    requires forall id | id in Ids(m.entries) && id in Ids(next) :: id in crashed.blobs
    ensures Recovered(d, m, next, added, crashed)
  {
    var found := Open(crashed).entries;
    forall e | e in d.index ensures e.id in Ids(d.index) {
    }
    KeptSame(d.index, crashed.blobs.Keys, d.blobs.Keys * crashed.blobs.Keys);
    KeptTwice(d.index, d.blobs.Keys, crashed.blobs.Keys);
    IdsKept(m.entries, crashed.blobs.Keys);
    KeptSame(m.entries, crashed.blobs.Keys, Ids(found));
  }

  lemma {:induction false} NewIndexRecovers(d: Disk, m: Memory, next: seq<Entry>, added: Bytes, crashed: Disk)
    requires crashed.index == next && Ids(next) <= crashed.blobs.Keys
    requires forall id | id in Ids(next) :: crashed.blobs[id] == OwnContent(d, m, added, id)
    ensures Recovered(d, m, next, added, crashed)
  {
    KeptAll(next, crashed.blobs.Keys);
    forall e | e in next ensures e.id in Ids(next) {
    }
  }

  lemma OpensIds(d: Disk, m: Memory)
    requires Opens(d, m)
    ensures Ids(m.entries) == Ids(d.index) * d.blobs.Keys
  {
    IdsKept(d.index, d.blobs.Keys);
  }

  /** Every crash point of "remove these blobs, then write this index". */
  lemma {:induction false} RewriteRecovers(d: Disk, m: Memory, gone: seq<nat>, next: seq<Entry>, added: Bytes, n: nat)
    requires Opens(d, m) && n <= |Rewrite(gone, next)|
    requires Ids(next) <= Ids(m.entries) && AsSet(gone) !! Ids(next)
    ensures Recovered(d, m, next, added, ApplySteps(d, Rewrite(gone, next)[..n]))
  {
    var crashed := ApplySteps(d, Rewrite(gone, next)[..n]);
    RewritePrefix(d, gone, next, n);
    OpensIds(d, m);
    if n == |gone| + 2 {
      NewIndexRecovers(d, m, next, added, crashed);
    } else {
      if n < |gone| {
        assert AsSet(gone[..n]) <= AsSet(gone);
      }
      OldIndexRecovers(d, m, next, added, crashed);
    }
  }

  // -- insertions --------------------------------------------------------------

  /** The steps that put a new blob in place. */
  function Blob(id: nat, data: Bytes): seq<FileStep> {
    [WriteTemporary, RenameBlob(id, data)]
  }

  lemma BlobPrefix(d: Disk, id: nat, data: Bytes, n: nat)
    requires n <= 2
    ensures ApplySteps(d, Blob(id, data)[..n]) == if n == 2 then d.(blobs := d.blobs[id := data]) else d
  {
    var steps := Blob(id, data)[..n];
    if n == 1 {
      assert steps == [WriteTemporary];
      ApplyOne(d, WriteTemporary);
    } else if n == 2 {
      assert steps == Blob(id, data);
      ApplyTwo(d, WriteTemporary, RenameBlob(id, data));
    }
  }

  /** An insertion lists the new id and some old ones, and drops none of those. */
  lemma InsertedIds(m: Memory, e: Entry)
    requires Sound(m) && e.id == m.nextId && !e.pinned
    ensures var grown := [e] + m.entries;
            && Ids(Trimmed(grown)) + AsSet(Dropped(grown)) == Ids(m.entries) + {e.id}
            && AsSet(Dropped(grown)) !! Ids(Trimmed(grown))
            && e in Trimmed(grown) && e.id in Ids(Trimmed(grown)) && e.id !in Ids(m.entries)
  {
    hide DistinctIds, DistinctKeys, Dropped, Inserting, KeyOf, Trimmed, Unpinned;
    var grown := [e] + m.entries;
    InsertingIs(m, e, []);
    TrimmedIsKept(grown);
    TrimmedIn(grown);
    IdsKept(grown, Ids(grown) - AsSet(Dropped(grown)));
    assert Ids(grown) == Ids(m.entries) + {e.id} by {
      assert forall x :: x in grown <==> x == e || x in m.entries;
    }
    FirstStays(e, m.entries);
    assert Trimmed(grown)[0] in Trimmed(grown);
  }

  lemma InsertingSteps(m: Memory, e: Entry, data: Bytes)
    requires Sound(m) && e.id == m.nextId
    ensures var grown, done := [e] + m.entries, Inserting(m, e, data);
            && done.memory.entries == Trimmed(grown)
            && done.steps == Blob(e.id, data) + Rewrite(Dropped(grown), Trimmed(grown))
  {
    InsertingIs(m, e, data);
    hide Dropped, Inserting, Sound, Trimmed;
  }

  /** The disk at a crash point of an insertion: before the blob is in place nothing has
      changed, and then the surplus goes, and then the index comes. */
  lemma {:induction false} InsertingPrefix(d: Disk, m: Memory, e: Entry, data: Bytes, n: nat)
    requires Sound(m) && e.id == m.nextId && n <= |Inserting(m, e, data).steps|
    ensures var next, gone := Trimmed([e] + m.entries), Dropped([e] + m.entries);
            var with := d.blobs[e.id := data];
            && |Inserting(m, e, data).steps| == |gone| + 4
            && ApplySteps(d, Inserting(m, e, data).steps[..n]) ==
               if n < 2 then d
               else if n < |gone| + 2 then d.(blobs := with - AsSet(gone[..n - 2]))
               else Disk(if n == |gone| + 4 then next else d.index, with - AsSet(gone))
  {
    hide Dropped, Inserting, Sound, Trimmed;
    var next, gone := Trimmed([e] + m.entries), Dropped([e] + m.entries);
    var blob, rest, steps := Blob(e.id, data), Rewrite(gone, next), Inserting(m, e, data).steps;
    InsertingSteps(m, e, data);
    if n < 2 {
      assert steps[..n] == blob[..n];
      BlobPrefix(d, e.id, data, n);
    } else {
      assert steps[..n] == blob + rest[..n - 2];
      ApplyConcat(d, blob, rest[..n - 2]);
      ApplyTwo(d, WriteTemporary, RenameBlob(e.id, data));
      RewritePrefix(d.(blobs := d.blobs[e.id := data]), gone, next, n - 2);
    }
  }

  lemma SomeGone(gone: seq<nat>, n: nat)
    requires n <= |gone|
    ensures AsSet(gone[..n]) <= AsSet(gone)
  {
  }

  lemma {:induction false} InsertingRecovers(d: Disk, m: Memory, e: Entry, data: Bytes, n: nat)
    requires Sound(m) && Opens(d, m) && e.id == m.nextId && !e.pinned
    requires n <= |Inserting(m, e, data).steps|
    requires n < 2 || n == |Inserting(m, e, data).steps| || e.id !in Ids(d.index)
    ensures Recovered(d, m, Trimmed([e] + m.entries), data, ApplySteps(d, Inserting(m, e, data).steps[..n]))
  {
    hide AsSet, Dropped, Inserting, Open, Recovered, Sound, Trimmed;
    var next, gone := Trimmed([e] + m.entries), Dropped([e] + m.entries);
    var crashed := ApplySteps(d, Inserting(m, e, data).steps[..n]);
    InsertingPrefix(d, m, e, data, n);
    InsertedIds(m, e);
    OpensIds(d, m);
    if n == |gone| + 4 {
      NewIndexRecovers(d, m, next, data, crashed);
    } else {
      if 2 <= n < |gone| + 2 {
        SomeGone(gone, n - 2);
      }
      OldIndexRecovers(d, m, next, data, crashed);
    }
  }

  // -- the lost entry that comes back ------------------------------------------

  /** The index lists an entry under an id that memory does not have, and its blob is the
      added one: opening finds it, so it finds the new list or something wrong. */
  lemma LostIsFound(d: Disk, m: Memory, id: nat, next: seq<Entry>, added: Bytes, crashed: Disk)
    requires Opens(d, m) && crashed.index == d.index && id in Ids(d.index) && id !in Ids(m.entries)
    requires Ids(next) <= Ids(m.entries) + {id} && id in crashed.blobs && crashed.blobs[id] == added
    requires forall other | other in Ids(m.entries) && other in crashed.blobs :: other in d.blobs && crashed.blobs[other] == d.blobs[other]
    ensures Recovered(d, m, next, added, crashed) <==> Open(crashed).entries == next
  {
    var lost :| lost in d.index && lost.id == id;
    assert lost in Open(crashed).entries;
    assert lost !in m.entries;
    forall other | other in next ensures other.id in Ids(next) {
    }
  }

  /** Once the new blob is in place such an entry is back. */
  lemma {:induction false} LostEntryIsFound(d: Disk, m: Memory, e: Entry, data: Bytes, n: nat)
    requires Sound(m) && Opens(d, m) && e.id == m.nextId && !e.pinned && e.id in Ids(d.index)
    requires 2 <= n < |Inserting(m, e, data).steps|
    ensures var next := Trimmed([e] + m.entries);
            var crashed := ApplySteps(d, Inserting(m, e, data).steps[..n]);
            Recovered(d, m, next, data, crashed) <==> Open(crashed).entries == next
  {
    hide AsSet, Dropped, Ids, Inserting, Open, Opens, Recovered, Sound, Trimmed;
    var next, gone := Trimmed([e] + m.entries), Dropped([e] + m.entries);
    var crashed := ApplySteps(d, Inserting(m, e, data).steps[..n]);
    InsertingPrefix(d, m, e, data, n);
    InsertedIds(m, e);
    OpensIds(d, m);
    if n < |gone| + 2 {
      SomeGone(gone, n - 2);
    }
    LostIsFound(d, m, e.id, next, data, crashed);
  }

  /** It finds the new list iff the surplus is gone already and the old index, cut down to
      the new ids, happens to be the new list. */
  lemma {:induction false} NewListIsFound(d: Disk, m: Memory, e: Entry, data: Bytes, n: nat)
    requires Sound(m) && Opens(d, m) && e.id == m.nextId && !e.pinned && e.id in Ids(d.index)
    requires 2 <= n < |Inserting(m, e, data).steps|
    ensures var next := Trimmed([e] + m.entries);
            var steps := Inserting(m, e, data).steps;
            Open(ApplySteps(d, steps[..n])).entries == next <==> n >= |steps| - 2 && Kept(d.index, Ids(next)) == next
  {
    var next, gone := Trimmed([e] + m.entries), Dropped([e] + m.entries);
    var crashed := ApplySteps(d, Inserting(m, e, data).steps[..n]);
    InsertingPrefix(d, m, e, data, n);
    InsertedIds(m, e);
    OpensIds(d, m);
    hide Dropped, Inserting, Sound, Trimmed;
    IdsKept(d.index, crashed.blobs.Keys);
    if n < |gone| + 2 {
      StillThere(m, e, d, gone, n - 2);
    } else {
      forall other | other in d.index ensures other.id in crashed.blobs.Keys <==> other.id in Ids(next) {
        assert other.id in Ids(d.index);
      }
      KeptSame(d.index, crashed.blobs.Keys, Ids(next));
    }
  }

  /** A surplus entry whose blob is not yet removed is still found. */
  lemma {:induction false} StillThere(m: Memory, e: Entry, d: Disk, gone: seq<nat>, n: nat)
    requires Sound(m) && Opens(d, m) && e.id == m.nextId && !e.pinned
    requires gone == Dropped([e] + m.entries) && n < |gone|
    ensures exists id :: id in Ids(d.index) * (d.blobs.Keys + {e.id} - AsSet(gone[..n])) && id !in Ids(Trimmed([e] + m.entries))
  {
    InsertedIds(m, e);
    OpensIds(d, m);
    InsertingIs(m, e, []);
    DroppedDistinct([e] + m.entries);
    hide Dropped, Inserting, Trimmed, DistinctIds;
    var id := gone[n];
    assert id in AsSet(gone) && id !in AsSet(gone[..n]);
    assert id in Ids(d.index) * (d.blobs.Keys + {e.id} - AsSet(gone[..n]));
  }

  lemma {:induction false} DroppedDistinct(entries: seq<Entry>)
    requires DistinctIds(entries)
    ensures forall i, j | 0 <= i < j < |Dropped(entries)| :: Dropped(entries)[i] != Dropped(entries)[j]
  {
    if entries != [] {
      var n := |entries| - 1;
      DroppedDistinct(entries[..n]);
      TrimmedIn(entries[..n]);
      forall i | 0 <= i < |Dropped(entries[..n])| ensures Dropped(entries[..n])[i] != entries[n].id {
        assert Dropped(entries[..n])[i] in Ids(entries[..n]);
        var k :| 0 <= k < n && entries[k].id == Dropped(entries[..n])[i];
      }
    }
  }

  // -- main results ------------------------------------------------------------

  function Payload(op: Op): Bytes {
    if op.Add? then op.data else []
  }

  predicate Inserts(m: Memory, op: Op) {
    op.Add? && Storable(op.kind, op.data, op.blank) && Find(m.entries, DataKey(op.data)) == |m.entries|
  }

  /** A crash point at which a lost entry of the old index owns the new blob. */
  predicate Resurrects(d: Disk, m: Memory, op: Op, n: nat) {
    Inserts(m, op) && m.nextId in Ids(d.index) && 2 <= n < |Perform(m, op).steps|
  }

  /** ... where the old index, cut down to the new ids, is the new list already. */
  predicate Rejoins(d: Disk, m: Memory, op: Op, n: nat) {
    var done := Perform(m, op);
    n >= |done.steps| - 2 && Kept(d.index, Ids(done.memory.entries)) == done.memory.entries
  }

  /** Crash recovery for every disk, every operation and every crash point: opening finds
      the new list or a sublist of the old one, each entry with its own content, iff no
      lost entry of the index comes back, or comes back as the new one. */
  lemma {:induction false} CrashRecovery(d: Disk, m: Memory, op: Op, n: nat)
    requires Sound(m) && Opens(d, m) && n <= |Perform(m, op).steps|
    ensures Recovered(d, m, Perform(m, op).memory.entries, Payload(op), ApplySteps(d, Perform(m, op).steps[..n]))
            <==> !Resurrects(d, m, op, n) || Rejoins(d, m, op, n)
  {
    if Inserts(m, op) {
      InsertionRecovery(d, m, op, n);
    } else {
      ChangeRecovery(d, m, op, n);
    }
  }

  lemma InsertsIs(m: Memory, op: Op)
    requires Inserts(m, op)
    ensures Perform(m, op) == Inserting(m, NewEntry(m, op.kind, op.mime, op.data, op.time), op.data)
  {
  }

  lemma {:induction false} InsertionRecovery(d: Disk, m: Memory, op: Op, n: nat)
    requires Sound(m) && Opens(d, m) && n <= |Perform(m, op).steps| && Inserts(m, op)
    ensures Recovered(d, m, Perform(m, op).memory.entries, Payload(op), ApplySteps(d, Perform(m, op).steps[..n]))
            <==> !Resurrects(d, m, op, n) || Rejoins(d, m, op, n)
  {
    hide Inserting, Kept, Open, Opens, Perform, Recovered, Sound, Trimmed, Dropped;
    var e := NewEntry(m, op.kind, op.mime, op.data, op.time);
    InsertsIs(m, op);
    InsertingSteps(m, e, op.data);
    if Resurrects(d, m, op, n) {
      LostEntryIsFound(d, m, e, op.data, n);
      NewListIsFound(d, m, e, op.data, n);
    } else {
      InsertingRecovers(d, m, e, op.data, n);
    }
  }

  /** Operations that give out no new id recover at every crash point. */
  lemma {:induction false} ChangeRecovery(d: Disk, m: Memory, op: Op, n: nat)
    requires Sound(m) && Opens(d, m) && n <= |Perform(m, op).steps| && !Inserts(m, op)
    ensures Recovered(d, m, Perform(m, op).memory.entries, Payload(op), ApplySteps(d, Perform(m, op).steps[..n]))
  {
    var gone := ChangeSteps(m, op);
    var outcome := Perform(m, op);
    hide Find, Open, Opens, Perform, Recovered, Rewrite, Sound;
    if outcome == Outcome(m, []) {
      NothingHappens(d, m, Payload(op));
      assert outcome.steps[..n] == [];
    } else {
      RewriteRecovers(d, m, gone, outcome.memory.entries, Payload(op), n);
    }
  }

  lemma NothingHappens(d: Disk, m: Memory, added: Bytes)
    requires Opens(d, m)
    ensures Recovered(d, m, m.entries, added, ApplySteps(d, []))
  {
    OpensIds(d, m);
    OldIndexRecovers(d, m, m.entries, added, d);
  }

  /** Every other operation does nothing, or removes some blobs and writes a shorter or
      reordered index. */
  lemma ChangeSteps(m: Memory, op: Op) returns (gone: seq<nat>)
    requires Sound(m) && !Inserts(m, op)
    ensures var outcome := Perform(m, op);
            outcome == Outcome(m, [])
            || (&& outcome.steps == Rewrite(gone, outcome.memory.entries)
                && Ids(outcome.memory.entries) <= Ids(m.entries) && AsSet(gone) !! Ids(outcome.memory.entries)
                && AsSet(gone) + Ids(outcome.memory.entries) == Ids(m.entries))
  {
    gone := [];
    match op
    case Add(kind, mime, data, time, blank) =>
      if Storable(kind, data, blank) {
        var index := Find(m.entries, DataKey(data));
        MovedIds(m, index, time);
        var moved := Moving(m, index, time).memory.entries;
        assert Save(moved) == Rewrite([], moved);
      }
    case Delete(id) =>
      if id in Ids(m.entries) {
        gone := [id];
        IdsKept(m.entries, Ids(m.entries) - {id});
        assert Removals([id]) == [RemoveBlob(id)];
      }
    case Clear =>
      gone := UnpinnedIds(m.entries);
      PinnedOnlyIsKept(m.entries);
      IdsKept(m.entries, Ids(m.entries) - AsSet(UnpinnedIds(m.entries)));
    case SetPinned(id, pinned) =>
      gone := PinningSteps(m, id, pinned);
  }

  lemma PinningSteps(m: Memory, id: nat, pinned: bool) returns (gone: seq<nat>)
    requires Sound(m)
    ensures var outcome := Pinning(m, id, pinned).0;
            outcome == Outcome(m, [])
            || (&& outcome.steps == Rewrite(gone, outcome.memory.entries)
                && Ids(outcome.memory.entries) <= Ids(m.entries) && AsSet(gone) !! Ids(outcome.memory.entries)
                && AsSet(gone) + Ids(outcome.memory.entries) == Ids(m.entries))
  {
    gone := [];
    var index := FindId(m.entries, id);
    if Pinning(m, id, pinned).1 == Ok(true) {
      var marked := m.entries[index := m.entries[index].(pinned := pinned)];
      MarkedSound(m, index, pinned);
      if pinned {
        assert Save(marked) == Rewrite([], marked);
      } else {
        UnpinningIs(m, index);
        gone := Dropped(marked);
        hide Dropped, Pinning, Sound, Trimmed, Unpinned;
        TrimmedIsKept(marked);
        TrimmedIn(marked);
        IdsKept(marked, Ids(marked) - AsSet(gone));
      }
    }
  }

  /** With the index up to date nothing can come back. */
  lemma {:induction false} CoveredRecovery(d: Disk, m: Memory, op: Op, n: nat)
    requires Sound(m) && Covers(d, m) && n <= |Perform(m, op).steps|
    ensures Recovered(d, m, Perform(m, op).memory.entries, Payload(op), ApplySteps(d, Perform(m, op).steps[..n]))
  {
    CoversOpens(d, m);
    hide Open, Perform, Recovered;
    CrashRecovery(d, m, op, n);
  }

  /** What comes back is an entry that opening had given up. If it is not the very entry
      that is being added, the crash is not recovered from. */
  lemma {:induction false} LostEntryIsWrong(d: Disk, m: Memory, op: Op, n: nat, lost: Entry)
    requires Sound(m) && Opens(d, m) && Resurrects(d, m, op, n)
    requires lost in d.index && lost.id == m.nextId
    ensures lost !in m.entries
    ensures lost != NewEntry(m, op.kind, op.mime, op.data, op.time) ==>
              !Recovered(d, m, Perform(m, op).memory.entries, Payload(op), ApplySteps(d, Perform(m, op).steps[..n]))
  {
    var e := NewEntry(m, op.kind, op.mime, op.data, op.time);
    InsertsIs(m, op);
    InsertingSteps(m, e, op.data);
    OnlyTheNewRejoins(d, m, e, lost);
    hide Dropped, Inserting, Open, Opens, Perform, Recovered, Trimmed;
    CrashRecovery(d, m, op, n);
  }

  lemma OnlyTheNewRejoins(d: Disk, m: Memory, e: Entry, lost: Entry)
    requires Sound(m) && e.id == m.nextId && !e.pinned
    requires lost in d.index && lost.id == e.id
    ensures lost !in m.entries
    ensures var next := Trimmed([e] + m.entries); Kept(d.index, Ids(next)) == next ==> lost == e
  {
    InsertedIds(m, e);
    TrimmedIn([e] + m.entries);
    hide Dropped, Trimmed, Unpinned;
    var next := Trimmed([e] + m.entries);
    if Kept(d.index, Ids(next)) == next {
      assert lost in next;
    }
  }

  /** Such a disk comes from one crash: deleting the only entry, after its blob went. */
  lemma SecondCrashCanHappen(e: Entry, content: Bytes)
    requires e.id == 1
    ensures var m := Memory([e], 2);
            var d := Disk([e], map[1 := content]);
            var crashed := ApplySteps(d, Deleting(m, 1).steps[..1]);
            Agrees(d, m) && crashed == Disk([e], map[]) && Open(crashed) == Memory([], 1)
  {
    var m := Memory([e], 2);
    var d := Disk([e], map[1 := content]);
    assert e in m.entries;
    assert Deleting(m, 1).steps[..1] == [RemoveBlob(1)];
    ApplyOne(d, RemoveBlob(1));
    assert d.blobs - {1} == map[];
    assert Kept([e], {}) == [] && Kept([e], Disk([e], map[]).blobs.Keys) == [];
  }

  /** And a second crash, while any other content is added, is then not recovered from. */
  lemma {:induction false} SecondCrashFails(e: Entry, op: Op)
    requires e.id == 1 && op.Add? && Storable(op.kind, op.data, op.blank)
    requires e != NewEntry(Memory([], 1), op.kind, op.mime, op.data, op.time)
    ensures var d, m := Disk([e], map[]), Memory([], 1);
            !Recovered(d, m, Perform(m, op).memory.entries, op.data, ApplySteps(d, Perform(m, op).steps[..2]))
  {
    var d, m := Disk([e], map[]), Memory([], 1);
    assert Opens(d, m) by {
      assert Kept([e][..0], d.blobs.Keys) == [];
    }
    assert e in d.index;
    hide Open, Opens, Recovered, Trimmed, Dropped;
    LostEntryIsWrong(d, m, op, 2, e);
  }

  // -- finished operations -----------------------------------------------------

  lemma {:induction false} RewriteEnds(d: Disk, gone: seq<nat>, entries: seq<Entry>)
    ensures ApplySteps(d, Rewrite(gone, entries)) == Disk(entries, d.blobs - AsSet(gone))
  {
    var steps := Rewrite(gone, entries);
    assert steps[..|steps|] == steps;
    RewritePrefix(d, gone, entries, |steps|);
  }

  /** The disk after a whole operation: the index is the new list, and the blobs are the
      old ones and the new one without those that were dropped. */
  lemma {:induction false} DiskAfter(d: Disk, m: Memory, op: Op) returns (dropped: set<nat>, added: set<nat>)
    requires Sound(m)
    ensures var outcome := Perform(m, op);
            outcome == Outcome(m, [])
            || (&& |outcome.steps| >= 2
                && ApplySteps(d, outcome.steps).index == outcome.memory.entries
                && ApplySteps(d, outcome.steps).blobs.Keys == d.blobs.Keys + added - dropped
                && Ids(outcome.memory.entries) == Ids(m.entries) + added - dropped)
  {
    var outcome := Perform(m, op);
    if Inserts(m, op) {
      var e := NewEntry(m, op.kind, op.mime, op.data, op.time);
      InsertsIs(m, op);
      InsertingSteps(m, e, op.data);
      InsertedIds(m, e);
      hide Inserting, Perform, Dropped, Trimmed, Sound;
      InsertingPrefix(d, m, e, op.data, |outcome.steps|);
      assert outcome.steps[..|outcome.steps|] == outcome.steps;
      dropped, added := AsSet(Dropped([e] + m.entries)), {e.id};
    } else {
      var gone := ChangeSteps(m, op);
      hide Inserts, Perform, Sound;
      dropped, added := AsSet(gone), {};
      if outcome != Outcome(m, []) {
        RewriteEnds(d, gone, outcome.memory.entries);
      }
    }
  }

  /** An operation that runs to its end leaves the disk as it leaves memory: the index
      is the list, and the blobs are exactly those of the listed ids. */
  lemma {:induction false} OperationsKeepAgreement(d: Disk, m: Memory, op: Op)
    requires Sound(m) && Agrees(d, m)
    ensures Sound(Perform(m, op).memory)
    ensures Agrees(ApplySteps(d, Perform(m, op).steps), Perform(m, op).memory)
  {
    OperationsKeepSound(m, op);
    var dropped, added := DiskAfter(d, m, op);
  }

  /** One operation that saves brings a reopened disk up to date. */
  lemma {:induction false} SavingCovers(d: Disk, m: Memory, op: Op)
    requires Sound(m) && Opens(d, m) && Perform(m, op).steps != []
    ensures Covers(ApplySteps(d, Perform(m, op).steps), Perform(m, op).memory)
  {
    OpensIds(d, m);
    hide Open, Opens, Perform, Sound;
    var dropped, added := DiskAfter(d, m, op);
  }

  /** Reopening a disk that agrees with memory gives the same list back, sound. */
  lemma ReopenIsIdentity(d: Disk, m: Memory)
    requires Sound(m) && Covers(d, m)
    ensures Open(d).entries == m.entries && Sound(Open(d)) && Covers(d, Open(d))
  {
    KeptAll(m.entries, d.blobs.Keys);
  }
}
