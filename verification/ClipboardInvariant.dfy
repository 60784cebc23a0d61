/** What every operation keeps, in memory and on disk. */
module ClipboardInvariant {
  import opened Basics
  import opened ClipboardModel
  import opened ClipboardLists

  lemma SoundKept(m: Memory, ids: set<nat>)
    requires Sound(m)
    ensures Sound(m.(entries := Kept(m.entries, ids)))
  {
    KeptDistinct(m.entries, ids);
    KeptCounts(m.entries, ids);
  }

  lemma TrimKeepsOrder(entries: seq<Entry>)
    requires DistinctIds(entries) && DistinctKeys(entries)
    ensures DistinctIds(Trimmed(entries)) && DistinctKeys(Trimmed(entries))
  {
    TrimmedIsKept(entries);
    KeptDistinct(entries, Ids(entries) - AsSet(Dropped(entries)));
  }

  /** Where the entry at position `i` after a move came from. */
  function Origin(index: nat, i: nat): nat {
    if i == 0 then index else if i <= index then i - 1 else i
  }

  lemma MovedFrom(m: Memory, index: nat, time: nat)
    requires index < |m.entries|
    ensures var entries := Moving(m, index, time).memory.entries;
            && |entries| == |m.entries|
            && (forall i | 0 <= i < |entries| ::
                  entries[i].id == m.entries[Origin(index, i)].id && KeyOf(entries[i]) == KeyOf(m.entries[Origin(index, i)]))
            && Unpinned(entries) == Unpinned(m.entries)
  {
    hide Unpinned;
    MovedUnpinned(m.entries, index, time);
  }

  lemma {:induction false} MovedUnpinned(entries: seq<Entry>, index: nat, time: nat)
    requires index < |entries|
    ensures Unpinned([entries[index].(time := time)] + entries[..index] + entries[index + 1..]) == Unpinned(entries)
  {
    hide Unpinned;
    var moved := entries[index].(time := time);
    var before, after := entries[..index], entries[index + 1..];
    UnpinnedConcat([moved] + before, after);
    UnpinnedConcat([moved], before);
    assert entries == before + [entries[index]] + after;
    UnpinnedConcat(before + [entries[index]], after);
    UnpinnedConcat(before, [entries[index]]);
    UnpinnedOne(moved);
    UnpinnedOne(entries[index]);
  }

  lemma MovedIds(m: Memory, index: nat, time: nat)
    requires index < |m.entries|
    ensures Ids(Moving(m, index, time).memory.entries) == Ids(m.entries)
  {
    var entries := Moving(m, index, time).memory.entries;
    MovedFrom(m, index, time);
    forall k | 0 <= k < |m.entries| ensures m.entries[k].id in Ids(entries) {
      var i := if k == index then 0 else if k < index then k + 1 else k;
      assert Origin(index, i) == k;
      assert entries[i] in entries;
    }
    forall i | 0 <= i < |entries| ensures entries[i].id in Ids(m.entries) {
      assert m.entries[Origin(index, i)] in m.entries;
    }
  }

  lemma MovingSound(m: Memory, index: nat, time: nat)
    requires Sound(m) && index < |m.entries|
    ensures Sound(Moving(m, index, time).memory)
  {
    var entries := Moving(m, index, time).memory.entries;
    MovedFrom(m, index, time);
    MovedIds(m, index, time);
    forall i, j | 0 <= i < j < |entries|
      ensures entries[i].id != entries[j].id && KeyOf(entries[i]) != KeyOf(entries[j]) {
      var a, b := Origin(index, i), Origin(index, j);
      if a < b {
        assert m.entries[a].id != m.entries[b].id && KeyOf(m.entries[a]) != KeyOf(m.entries[b]);
      } else {
        assert m.entries[b].id != m.entries[a].id && KeyOf(m.entries[b]) != KeyOf(m.entries[a]);
      }
    }
    forall e | e in entries ensures e.id < m.nextId {
      assert e.id in Ids(entries);
    }
  }

  /** With distinct ids, trimming after an insertion is the cap and nothing else. */
  lemma InsertingIs(m: Memory, e: Entry, data: Bytes)
    requires Sound(m) && e.id == m.nextId
    ensures var grown := [e] + m.entries;
            && DistinctIds(grown)
            && Inserting(m, e, data) ==
               Outcome(Memory(Trimmed(grown), m.nextId + 1),
                       [WriteTemporary, RenameBlob(e.id, data)] + Removals(Dropped(grown)) + Save(Trimmed(grown)))
  {
    var grown := [e] + m.entries;
    assert DistinctIds(grown) by {
      assert forall i | 0 <= i < |m.entries| :: m.entries[i] in m.entries;
    }
    hide Trimmed, Dropped, WithoutDropped, DistinctIds, DistinctKeys, Removals;
    TrimmedIsKept(grown);
  }

  lemma GrownKeys(m: Memory, e: Entry)
    requires DistinctKeys(m.entries) && forall other | other in m.entries :: KeyOf(other) != KeyOf(e)
    ensures DistinctKeys([e] + m.entries)
  {
    hide KeyOf;
    assert forall i | 0 <= i < |m.entries| :: m.entries[i] in m.entries;
  }

  lemma GrownCounts(m: Memory, e: Entry)
    requires !e.pinned
    ensures var grown := [e] + m.entries;
            Unpinned(grown) == Unpinned(m.entries) + 1 && |grown| == |m.entries| + 1
  {
    UnpinnedConcat([e], m.entries);
    UnpinnedOne(e);
  }

  lemma InsertingSound(m: Memory, e: Entry, data: Bytes)
    requires Sound(m) && e.id == m.nextId && !e.pinned
    requires forall other | other in m.entries :: KeyOf(other) != KeyOf(e)
    ensures Sound(Inserting(m, e, data).memory)
    ensures e in Inserting(m, e, data).memory.entries
  {
    var grown := [e] + m.entries;
    InsertingIs(m, e, data);
    GrownKeys(m, e);
    GrownCounts(m, e);
    hide DistinctIds, DistinctKeys, Dropped, Inserting, KeyOf, Trimmed, Unpinned;
    TrimmedCounts(grown);
    TrimKeepsOrder(grown);
    TrimmedIn(grown);
    TrimDropsExactly(grown, 0);
    assert grown[..0] == [] && Unpinned([]) == 0 by {
      NoneUnpinned();
    }
  }

  lemma NoneUnpinned()
    ensures Unpinned([]) == 0
  {
  }

  lemma MarkedSame(entries: seq<Entry>, index: nat, pinned: bool)
    requires index < |entries| && DistinctIds(entries) && DistinctKeys(entries)
    ensures var marked := entries[index := entries[index].(pinned := pinned)];
            DistinctIds(marked) && DistinctKeys(marked) && Ids(marked) == Ids(entries)
  {
    var marked := entries[index := entries[index].(pinned := pinned)];
    forall i | 0 <= i < |marked| ensures marked[i].id == entries[i].id && KeyOf(marked[i]) == KeyOf(entries[i]) {
    }
    hide KeyOf;
    forall i | 0 <= i < |marked| ensures entries[i].id in Ids(marked) && marked[i].id in Ids(entries) {
      assert marked[i] in marked && entries[i] in entries;
    }
  }

  lemma MarkedUnpinned(entries: seq<Entry>, index: nat, pinned: bool)
    requires index < |entries| && entries[index].pinned != pinned
    ensures var marked := entries[index := entries[index].(pinned := pinned)];
            Unpinned(marked) == Unpinned(entries) + if pinned then -1 else 1
  {
    hide Unpinned;
    var e, f := entries[index], entries[index].(pinned := pinned);
    var before, after := entries[..index], entries[index + 1..];
    assert entries[index := f] == before + [f] + after;
    assert entries == before + [e] + after;
    UnpinnedConcat(before + [f], after);
    UnpinnedConcat(before, [f]);
    UnpinnedConcat(before + [e], after);
    UnpinnedConcat(before, [e]);
    UnpinnedOne(e);
    UnpinnedOne(f);
  }

  lemma MarkedSound(m: Memory, index: nat, pinned: bool)
    requires Sound(m) && index < |m.entries| && m.entries[index].pinned != pinned
    ensures var marked := m.entries[index := m.entries[index].(pinned := pinned)];
            && DistinctIds(marked) && DistinctKeys(marked)
            && Ids(marked) == Ids(m.entries)
            && Unpinned(marked) == Unpinned(m.entries) + if pinned then -1 else 1
  {
    hide DistinctIds, DistinctKeys, Ids, Unpinned;
    MarkedSame(m.entries, index, pinned);
    MarkedUnpinned(m.entries, index, pinned);
  }

  /** With distinct ids, trimming after an unpinning is the cap and nothing else. */
  lemma UnpinningIs(m: Memory, index: nat)
    requires Sound(m) && index < |m.entries| && m.entries[index].pinned
    ensures var marked := m.entries[index := m.entries[index].(pinned := false)];
            && DistinctIds(marked) && FindId(m.entries, m.entries[index].id) == index
            && Pinning(m, m.entries[index].id, false) ==
               (Outcome(m.(entries := Trimmed(marked)), Removals(Dropped(marked)) + Save(Trimmed(marked))), Ok(true))
  {
    var marked := m.entries[index := m.entries[index].(pinned := false)];
    MarkedSound(m, index, false);
    hide DistinctKeys, Dropped, Removals, Trimmed, Unpinned, WithoutDropped;
    TrimmedIsKept(marked);
    assert FindId(m.entries, m.entries[index].id) == index;
  }

  lemma PinningSound(m: Memory, id: nat, pinned: bool)
    requires Sound(m)
    ensures Sound(Pinning(m, id, pinned).0.memory)
  {
    var index := FindId(m.entries, id);
    if Pinning(m, id, pinned).1 == Ok(true) {
      var marked := m.entries[index := m.entries[index].(pinned := pinned)];
      MarkedSound(m, index, pinned);
      MarkedIds(m, marked);
      if !pinned {
        UnpinningIs(m, index);
        hide DistinctIds, DistinctKeys, Dropped, Pinning, Trimmed, Unpinned;
        TrimmedCounts(marked);
        TrimKeepsOrder(marked);
        TrimmedIn(marked);
      }
    }
  }

  lemma MarkedIds(m: Memory, marked: seq<Entry>)
    requires Sound(m) && Ids(marked) == Ids(m.entries)
    ensures forall e | e in marked :: e.id < m.nextId
  {
    forall e | e in marked ensures e.id < m.nextId {
      assert e.id in Ids(marked);
    }
  }

  lemma OperationsKeepSound(m: Memory, op: Op)
    requires Sound(m)
    ensures Sound(Perform(m, op).memory)
  {
    match op
    case Add(kind, mime, data, time, blank) =>
      if Storable(kind, data, blank) {
        var index := Find(m.entries, DataKey(data));
        if index < |m.entries| {
          MovingSound(m, index, time);
        } else {
          InsertingSound(m, NewEntry(m, kind, mime, data, time), data);
        }
      }
    case Delete(id) => SoundKept(m, Ids(m.entries) - {id});
    case Clear =>
      PinnedOnlyIsKept(m.entries);
      SoundKept(m, Ids(m.entries) - AsSet(UnpinnedIds(m.entries)));
    case SetPinned(id, pinned) => PinningSound(m, id, pinned);
  }

  /** A new content is always listed afterwards, first, and pinned entries stay. */
  lemma {:induction false} AddKeeps(m: Memory, kind: Kind, mime: string, data: Bytes, time: nat, blank: bool)
    requires Sound(m) && Storable(kind, data, blank)
    ensures var n := Adding(m, kind, mime, data, time, blank).0.memory;
            && n.entries != [] && KeyOf(n.entries[0]) == DataKey(data)
            && (forall e | e in m.entries && e.pinned :: e.id in Ids(n.entries))
  {
    var index := Find(m.entries, DataKey(data));
    if index < |m.entries| {
      MovingSound(m, index, time);
    } else {
      var e := NewEntry(m, kind, mime, data, time);
      InsertingIs(m, e, data);
      hide DistinctIds, DistinctKeys, Dropped, Inserting, Trimmed, Unpinned;
      FirstStays(e, m.entries);
      InsertingKeepsPinned(m, e);
    }
  }

  lemma InsertingKeepsPinned(m: Memory, e: Entry)
    requires DistinctIds([e] + m.entries)
    ensures forall other | other in m.entries && other.pinned :: other in Trimmed([e] + m.entries)
  {
    hide Trimmed, DistinctIds;
    var grown := [e] + m.entries;
    forall i | 0 <= i < |m.entries| && m.entries[i].pinned ensures m.entries[i] in Trimmed(grown) {
      TrimDropsExactly(grown, i + 1);
    }
  }

  lemma {:induction false} FirstStays(e: Entry, entries: seq<Entry>)
    requires !e.pinned
    ensures Trimmed([e] + entries) != [] && Trimmed([e] + entries)[0] == e
  {
    var grown := [e] + entries;
    if entries == [] {
      assert grown[..0] == [];
    } else {
      var n := |entries| - 1;
      assert grown[..|grown| - 1] == [e] + entries[..n];
      FirstStays(e, entries[..n]);
    }
  }

  /** Unpinning loses the entry exactly when MAX_HISTORY unpinned ones stand before it. */
  lemma UnpinningMayDrop(m: Memory, index: nat)
    requires Sound(m) && index < |m.entries| && m.entries[index].pinned
    ensures var n := Pinning(m, m.entries[index].id, false).0.memory;
            m.entries[index].id in Ids(n.entries) <==> Unpinned(m.entries[..index]) < MAX_HISTORY
  {
    var id := m.entries[index].id;
    UnpinningIs(m, index);
    hide Dropped, Pinning, Trimmed, Unpinned;
    var f := m.entries[index].(pinned := false);
    var marked := m.entries[index := f];
    MarkedSound(m, index, false);
    TrimDropsExactly(marked, index);
    TrimmedIn(marked);
    assert marked[..index] == m.entries[..index];
    forall e | e in Trimmed(marked) && e.id == id ensures e == f {
      var k :| 0 <= k < |marked| && marked[k] == e;
      assert marked[index] == f;
    }
  }
}
