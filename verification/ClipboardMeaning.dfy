/** What the operations of the clipboard history answer and leave, case by case. */
module ClipboardMeaning {
  import opened Basics
  import opened ClipboardModel
  import opened ClipboardLists
  import opened ClipboardInvariant

  /** What is refused: nothing, too much, and text that shows nothing. */
  predicate Refused(kind: Kind, data: Bytes, blank: bool) {
    data == [] || |data| > 5_242_880 || (kind.Text? && blank)
  }

  predicate Lists(entries: seq<Entry>, key: Key) {
    exists e :: e in entries && KeyOf(e) == key
  }

  /** The entry at `i` goes to the front with a new time; the others keep their order. */
  predicate MovedUp(before: seq<Entry>, i: nat, after: seq<Entry>, time: nat) {
    && i < |before| && |after| == |before|
    && after[0] == before[i].(time := time)
    && (forall j | 0 <= j < i :: after[j + 1] == before[j])
    && (forall j | i < j < |before| :: after[j] == before[j])
  }

  lemma MovingMeans(m: Memory, index: nat, time: nat)
    requires index < |m.entries|
    ensures var n := Moving(m, index, time).memory; MovedUp(m.entries, index, n.entries, time) && n.nextId == m.nextId
  {
  }

  /** An addition is skipped iff its content is refused, moves the entry that has the same
      hash and size, and otherwise lists exactly the content first, within the cap. */
  lemma AddMeans(m: Memory, kind: Kind, mime: string, data: Bytes, time: nat, blank: bool)
    requires Sound(m)
    ensures var (o, added) := Adding(m, kind, mime, data, time, blank);
            var key := Key(Fingerprint(data), |data|);
            && (added.Skipped? <==> Refused(kind, data, blank))
            && (added.Skipped? ==> o == Outcome(m, []))
            && (added.Moved? <==> !Refused(kind, data, blank) && Lists(m.entries, key))
            && (added.Moved? ==> o.memory.nextId == m.nextId && exists i: nat ::
                  MovedUp(m.entries, i, o.memory.entries, time) && m.entries[i].id == added.id && KeyOf(m.entries[i]) == key)
            && (added.New? ==>
                  var e := Entry(m.nextId, kind, mime, |data|, Fingerprint(data), time, false);
                  added.id == m.nextId && o.memory == Memory(Trimmed([e] + m.entries), m.nextId + 1))
  {
    hide Fingerprint, Trimmed, Dropped, Unpinned, WithoutDropped, Removals, DistinctIds, DistinctKeys, Moving, Inserting, MovedUp;
    var index := Find(m.entries, DataKey(data));
    if !Refused(kind, data, blank) {
      if index < |m.entries| {
        MovingMeans(m, index, time);
        assert m.entries[index] in m.entries;
      } else {
        InsertingIs(m, NewEntry(m, kind, mime, data, time), data);
      }
    }
  }

  /** A deletion takes out the entry with the id and nothing else. */
  lemma DeleteMeans(m: Memory, id: nat)
    requires Sound(m)
    ensures var n := Deleting(m, id).memory;
            && n.nextId == m.nextId
            && (id !in Ids(m.entries) ==> n == m)
            && (id in Ids(m.entries) ==> exists i ::
                  0 <= i < |m.entries| && m.entries[i].id == id && n.entries == m.entries[..i] + m.entries[i + 1..])
  {
    hide Kept, Unpinned, DistinctKeys, Ids;
    if id in Ids(m.entries) {
      OneHas(m.entries, id);
      var i := FindId(m.entries, id);
      OthersStay(m.entries, i, Ids(m.entries) - {id});
    }
  }

  lemma OneHas(entries: seq<Entry>, id: nat)
    requires DistinctIds(entries) && id in Ids(entries)
    ensures var i := FindId(entries, id);
            i < |entries| && entries[i].id == id && forall j | 0 <= j < |entries| && j != i :: entries[j].id in Ids(entries) - {id}
  {
    assert forall j | 0 <= j < |entries| :: entries[j] in entries;
  }

  lemma LastIsApart(entries: seq<Entry>, i: nat)
    requires i < |entries|
    ensures var n := |entries| - 1;
            entries[..i] + entries[i + 1..] ==
            if i == n then entries[..n] else (entries[..n][..i] + entries[..n][i + 1..]) + [entries[n]]
  {
  }

  lemma {:induction false} OthersStay(entries: seq<Entry>, i: nat, ids: set<nat>)
    requires i < |entries| && entries[i].id !in ids
    requires forall j | 0 <= j < |entries| && j != i :: entries[j].id in ids
    ensures Kept(entries, ids) == entries[..i] + entries[i + 1..]
  {
    hide Kept;
    var n := |entries| - 1;
    var front := entries[..n];
    LastIsApart(entries, i);
    KeptStep(entries, ids);
    assert forall j | 0 <= j < n :: front[j] == entries[j];
    if i == n {
      AllWithin(front, ids);
      assert Kept(front, ids) + [] == front;
    } else {
      OthersStay(front, i, ids);
    }
  }

  lemma KeptStep(entries: seq<Entry>, ids: set<nat>)
    requires entries != []
    ensures var n := |entries| - 1;
            Kept(entries, ids) == Kept(entries[..n], ids) + if entries[n].id in ids then [entries[n]] else []
  {
  }

  lemma AllWithin(entries: seq<Entry>, ids: set<nat>)
    requires forall j | 0 <= j < |entries| :: entries[j].id in ids
    ensures Kept(entries, ids) == entries
  {
    hide Kept;
    assert Ids(entries) <= ids;
    KeptAll(entries, ids);
  }

  predicate Has(entries: seq<Entry>, id: nat, pinned: bool) {
    exists e :: e in entries && e.id == id && e.pinned == pinned
  }

  /** Pinning answers what it finds: no such entry, nothing to do, no room, or done; only the
      last changes anything, and then only the flag, but for the cap when a pin is lost. */
  lemma PinMeans(m: Memory, id: nat, pinned: bool)
    requires Sound(m)
    ensures var (o, r) := Pinning(m, id, pinned);
            && (r == Err(NotFound) <==> id !in Ids(m.entries))
            && (r == Ok(false) <==> Has(m.entries, id, pinned))
            && (r == Err(Full) <==> Has(m.entries, id, !pinned) && pinned && |m.entries| - Unpinned(m.entries) == 25)
            && (r != Ok(true) ==> o == Outcome(m, []))
            && (r == Ok(true) ==> o.memory.nextId == m.nextId && exists i ::
                  && 0 <= i < |m.entries| && m.entries[i].id == id
                  && var marked := m.entries[i := m.entries[i].(pinned := pinned)];
                     o.memory.entries == if pinned then marked else Trimmed(marked))
  {
    hide Trimmed, Dropped, Unpinned, WithoutDropped, Removals, DistinctKeys;
    var i := FindId(m.entries, id);
    if i < |m.entries| {
      assert m.entries[i] in m.entries;
      forall e | e in m.entries && e.id == id ensures e == m.entries[i] {
        var k :| 0 <= k < |m.entries| && m.entries[k] == e;
      }
      if m.entries[i].pinned && !pinned {
        UnpinningIs(m, i);
      }
    }
  }
}
