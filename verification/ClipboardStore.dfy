/** The store as the source writes it: a list changed in place and files written as it
    goes. Each operation is proved to leave the memory, and to make the file steps, of
    its specification. */
module ClipboardStore {
  import opened Basics
  import opened ClipboardModel
  import opened ClipboardLists

  /** `retain` of every other id. */
  function Retain(entries: seq<Entry>, id: nat): seq<Entry> {
    Kept(entries, Ids(entries) - {id})
  }

  class Store {
    var entries: seq<Entry>
    var nextId: nat
    var index: seq<Entry>
    var blobs: map<nat, Bytes>
    ghost const initial: Disk
    ghost var trace: seq<FileStep>

    ghost function View(): Memory
      reads this
    {
      Memory(entries, nextId)
    }

    ghost function Files(): Disk
      reads this
    {
      Disk(index, blobs)
    }

    /** The files are those found at the start, changed by the steps made since. */
    ghost predicate Valid()
      reads this
    {
      Files() == ApplySteps(initial, trace)
    }

    /** What an operation promises: the memory and the file steps of its specification. */
    twostate predicate Did(outcome: Outcome)
      reads this
    {
      Valid() && View() == outcome.memory && trace == old(trace) + outcome.steps
    }

    constructor (index: seq<Entry>, blobs: map<nat, Bytes>)
      ensures Valid() && Files() == Disk(index, blobs) && trace == []
      ensures View() == Open(Files())
    {
      this.index, this.blobs := index, blobs;
      initial, trace := Disk(index, blobs), [];
      var entries := Kept(index, blobs.Keys);
      this.entries := entries;
      nextId := MaxId(entries) + 1;
    }

    // -- file steps ------------------------------------------------------------

    ghost method Record(step: FileStep)
      modifies this`trace
      ensures trace == old(trace) + [step]
      ensures ApplySteps(initial, trace) == ApplyStep(ApplySteps(initial, old(trace)), step)
    {
      trace := trace + [step];
      assert trace[..|trace| - 1] == old(trace);
    }

    method WriteBlob(id: nat, data: Bytes)
      requires Valid()
      modifies this`blobs, this`trace
      ensures Valid() && trace == old(trace) + [WriteTemporary, RenameBlob(id, data)]
    {
      Record(WriteTemporary);
      blobs := blobs[id := data];
      Record(RenameBlob(id, data));
    }

    method RemoveFiles(id: nat)
      requires Valid()
      modifies this`blobs, this`trace
      ensures Valid() && trace == old(trace) + [RemoveBlob(id)]
    {
      blobs := blobs - {id};
      Record(RemoveBlob(id));
    }

    method SaveIndex()
      requires Valid()
      modifies this`index, this`trace
      ensures Valid() && trace == old(trace) + Save(entries)
    {
      Record(WriteTemporary);
      index := entries;
      Record(RenameIndex(entries));
    }

    /** Removes the files of each id in turn. */
    method RemoveAll(ids: seq<nat>)
      requires Valid()
      modifies this`blobs, this`trace
      ensures Valid() && trace == old(trace) + Removals(ids)
    {
      var i := 0;
      while i < |ids|
        invariant i <= |ids| && Valid()
        invariant entries == old(entries) && index == old(index)
        invariant trace == old(trace) + Removals(ids[..i])
      {
        RemoveFiles(ids[i]);
        assert ids[..i + 1][..i] == ids[..i];
        i := i + 1;
      }
      assert ids[..i] == ids;
    }

    // -- operations ------------------------------------------------------------

    /** FNV-1a, byte by byte. */
    static method Hash(data: Bytes) returns (hash: nat)
      ensures hash == Fingerprint(data)
    {
      hash := FNV_OFFSET;
      var i := 0;
      while i < |data|
        invariant i <= |data| && hash == Fingerprint(data[..i])
      {
        hash := Mix(hash, data[i]);
        assert data[..i + 1][..i] == data[..i];
        i := i + 1;
      }
      assert data[..i] == data;
    }

    method Position(key: Key) returns (n: nat)
      ensures n == ClipboardModel.Find(entries, key)
    {
      n := 0;
      while n < |entries| && KeyOf(entries[n]) != key
        invariant n <= |entries|
        invariant forall i | 0 <= i < n :: KeyOf(entries[i]) != key
      {
        n := n + 1;
      }
    }

    /** The ids beyond the cap. */
    method Surplus() returns (drop: seq<nat>)
      ensures drop == Dropped(entries)
    {
      var unpinned := 0;
      drop := [];
      var i := 0;
      while i < |entries|
        invariant i <= |entries|
        invariant unpinned == Unpinned(entries[..i]) && drop == Dropped(entries[..i])
      {
        assert entries[..i + 1][..i] == entries[..i];
        if !entries[i].pinned {
          unpinned := unpinned + 1;
          if unpinned > MAX_HISTORY {
            drop := drop + [entries[i].id];
          }
        }
        i := i + 1;
      }
      assert entries[..i] == entries;
    }

    /** The body of the loop of `trim`: one id, its files and its entry. */
    method DropOne(ghost before: seq<Entry>, ghost dropped: seq<nat>, id: nat)
      requires Valid() && entries == Remaining(before, dropped)
      modifies this`entries, this`blobs, this`trace
      ensures Valid() && entries == Remaining(before, dropped + [id])
      ensures trace == old(trace) + [RemoveBlob(id)]
    {
      RemoveFiles(id);
      DropOneMore(before, dropped, id);
      entries := Retain(entries, id);
    }

    /** Drops the oldest unpinned entries beyond the cap, one by one. */
    method Trim()
      requires Valid()
      modifies this`entries, this`blobs, this`trace
      ensures Valid()
      ensures entries == WithoutDropped(old(entries))
      ensures trace == old(trace) + Removals(Dropped(old(entries)))
    {
      hide AsSet, Dropped, Kept;
      var drop := Surplus();
      ghost var before := entries;
      DropNone(before);
      var i := 0;
      while i < |drop|
        invariant i <= |drop| && Valid()
        invariant index == old(index) && nextId == old(nextId)
        invariant trace == old(trace) + Removals(drop[..i])
        invariant entries == Remaining(before, drop[..i])
      {
        DropOne(before, drop[..i], drop[i]);
        assert drop[..i + 1] == drop[..i] + [drop[i]];
        i := i + 1;
      }
      assert drop[..i] == drop;
    }

    method MoveUp(at: nat, time: nat) returns (id: nat)
      requires Valid() && at < |entries|
      modifies this`entries, this`index, this`trace
      ensures Did(Moving(old(View()), at, time))
      ensures id == old(entries[at].id)
    {
      var entry := entries[at].(time := time);
      entries := [entry] + entries[..at] + entries[at + 1..];
      SaveIndex();
      return entry.id;
    }

    method Insert(e: Entry, data: Bytes)
      requires Valid() && e.id == nextId
      modifies this
      ensures Did(Inserting(old(View()), e, data))
    {
      ghost var grown := [e] + entries;
      nextId := nextId + 1;
      WriteBlob(e.id, data);
      entries := [e] + entries;
      Trim();
      SaveIndex();
      Regroup(old(trace), [WriteTemporary, RenameBlob(e.id, data)], Removals(Dropped(grown)), Save(WithoutDropped(grown)));
    }

    method Add(kind: Kind, mime: string, data: Bytes, time: nat, blank: bool) returns (added: Added)
      requires Valid()
      modifies this
      ensures Did(Adding(old(View()), kind, mime, data, time, blank).0)
      ensures added == Adding(old(View()), kind, mime, data, time, blank).1
    {
      if data == [] || |data| > MAX_ENTRY_BYTES || (kind.Text? && blank) {
        return Skipped;
      }
      var hash := Hash(data);
      var at := Position(Key(hash, |data|));
      if at < |entries| {
        var id := MoveUp(at, time);
        return Moved(id);
      }
      var e := Entry(nextId, kind, mime, |data|, hash, time, false);
      Insert(e, data);
      return New(e.id);
    }

    method Delete(id: nat) returns (found: bool)
      requires Valid()
      modifies this
      ensures Did(Deleting(old(View()), id))
      ensures found == (id in Ids(old(entries)))
    {
      var kept := Retain(entries, id);
      found := |kept| != |entries|;
      KeptLength(entries, id);
      entries := kept;
      if found {
        RemoveFiles(id);
        SaveIndex();
        Regroup(old(trace), [RemoveBlob(id)], Save(kept), []);
      }
    }

    method Clear() returns (removed: nat)
      requires Valid()
      modifies this
      ensures Did(Clearing(old(View())))
      ensures removed == Unpinned(old(entries))
    {
      var ids := UnpinnedIds(entries);
      removed := |ids|;
      UnpinnedIdsLength(entries);
      RemoveAll(ids);
      entries := PinnedOnly(entries);
      SaveIndex();
      assert old(trace) + Removals(ids) + Save(entries) == old(trace) + (Removals(ids) + Save(entries));
    }

    method CountPinned() returns (count: nat)
      ensures count == |entries| - Unpinned(entries)
    {
      count := 0;
      var i := 0;
      while i < |entries|
        invariant i <= |entries| && count == i - Unpinned(entries[..i])
      {
        assert entries[..i + 1][..i] == entries[..i];
        count := count + if entries[i].pinned then 1 else 0;
        i := i + 1;
      }
      assert entries[..i] == entries;
    }

    /** Marks an entry and, when it lost its pin, brings the list back under the cap. */
    method Mark(at: nat, pinned: bool)
      requires Valid() && at < |entries|
      modifies this`entries, this`index, this`blobs, this`trace
      ensures var marked := old(entries)[at := old(entries)[at].(pinned := pinned)];
              if pinned then Did(Outcome(Memory(marked, nextId), Save(marked)))
              else
                Did(Outcome(Memory(WithoutDropped(marked), nextId), Removals(Dropped(marked)) + Save(WithoutDropped(marked))))
    {
      hide ApplySteps, Dropped, Removals, WithoutDropped;
      entries := entries[at := entries[at].(pinned := pinned)];
      ghost var marked := entries;
      if !pinned {
        Trim();
      }
      SaveIndex();
      if !pinned {
        assert old(trace) + Removals(Dropped(marked)) + Save(entries)
            == old(trace) + (Removals(Dropped(marked)) + Save(entries));
      }
    }

    method SetPinned(id: nat, pinned: bool) returns (r: Result<bool, PinError>)
      requires Valid()
      modifies this
      ensures Did(Pinning(old(View()), id, pinned).0)
      ensures r == Pinning(old(View()), id, pinned).1
    {
      var pinnedCount := CountPinned();
      var at := FindId(entries, id);
      if at == |entries| {
        return Err(NotFound);
      }
      if entries[at].pinned == pinned {
        return Ok(false);
      }
      if pinned && pinnedCount >= MAX_PINNED {
        return Err(Full);
      }
      Mark(at, pinned);
      return Ok(true);
    }
  }

  // -- lemmas about the lists --------------------------------------------------

  /** What is left of the list once the files of `dropped` are gone. */
  ghost function Remaining(entries: seq<Entry>, dropped: seq<nat>): seq<Entry> {
    Kept(entries, Ids(entries) - AsSet(dropped))
  }

  lemma DropNone(entries: seq<Entry>)
    ensures Remaining(entries, []) == entries
  {
    KeptAll(entries, Ids(entries) - AsSet([]));
  }

  lemma DropOneMore(entries: seq<Entry>, dropped: seq<nat>, id: nat)
    ensures Retain(Remaining(entries, dropped), id) == Remaining(entries, dropped + [id])
  {
    RetainOther(entries, Ids(entries) - AsSet(dropped), id);
    assert Ids(entries) - AsSet(dropped + [id]) == Ids(entries) - AsSet(dropped) - {id};
  }

  /** Two removals by id are one removal of both. */
  lemma {:induction false} RetainOther(entries: seq<Entry>, ids: set<nat>, id: nat)
    ensures var kept := Kept(entries, ids); Kept(kept, Ids(kept) - {id}) == Kept(entries, ids - {id})
  {
    var kept := Kept(entries, ids);
    KeptTwice(entries, ids, Ids(kept) - {id});
    IdsKept(entries, ids);
    KeptSame(entries, ids * (Ids(kept) - {id}), ids - {id});
  }

  lemma Regroup(done: seq<FileStep>, a: seq<FileStep>, b: seq<FileStep>, c: seq<FileStep>)
    ensures done + a + b + c == done + (a + b + c)
    ensures c == [] ==> a + b + c == a + b && done + a + b + c == done + a + b
  {
  }

  lemma {:induction false} KeptLength(entries: seq<Entry>, id: nat)
    ensures var kept := Retain(entries, id);
            && |kept| <= |entries|
            && (|kept| == |entries| <==> id !in Ids(entries))
            && (id !in Ids(entries) ==> kept == entries)
  {
    var kept := Kept(entries, Ids(entries) - {id});
    if id in Ids(entries) {
      KeptShorter(entries, Ids(entries) - {id});
    } else {
      KeptAll(entries, Ids(entries) - {id});
    }
  }

  lemma {:induction false} KeptShorter(entries: seq<Entry>, ids: set<nat>)
    ensures |Kept(entries, ids)| <= |entries|
    ensures !(Ids(entries) <= ids) ==> |Kept(entries, ids)| < |entries|
  {
    if entries != [] {
      var n := |entries| - 1;
      LastApart(entries);
      KeptShorter(entries[..n], ids);
      if entries[n].id in ids && !(Ids(entries) <= ids) {
        assert !(Ids(entries[..n]) <= ids);
      }
    }
  }

  lemma {:induction false} UnpinnedIdsLength(entries: seq<Entry>)
    ensures |UnpinnedIds(entries)| == Unpinned(entries)
  {
    if entries != [] {
      UnpinnedIdsLength(entries[..|entries| - 1]);
    }
  }
}
