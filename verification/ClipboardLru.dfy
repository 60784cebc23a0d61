/** The bounded history is a window on the unbounded one: after any accepted additions
    it lists the first MAX_HISTORY of all distinct contents, most recent first. */
module ClipboardLru {
  import opened ClipboardModel
  import opened ClipboardLists
  import opened ClipboardInvariant

  // -- the unbounded history ---------------------------------------------------

  function Without(keys: seq<Key>, key: Key): seq<Key> {
    if keys == [] then []
    else (if keys[0] == key then [] else [keys[0]]) + Without(keys[1..], key)
  }

  function MoveToFront(keys: seq<Key>, key: Key): seq<Key> {
    [key] + Without(keys, key)
  }

  function Recent(uses: seq<Key>): seq<Key> {
    if uses == [] then []
    else MoveToFront(Recent(uses[..|uses| - 1]), uses[|uses| - 1])
  }

  function Window(keys: seq<Key>): seq<Key> {
    if |keys| <= MAX_HISTORY then keys else keys[..MAX_HISTORY]
  }

  function LastUse(uses: seq<Key>, key: Key): (n: nat)
    requires key in uses
    ensures n < |uses| && uses[n] == key
  {
    var n := |uses| - 1;
    if uses[n] == key then n
    else
      assert uses == uses[..n] + [uses[n]];
      LastUse(uses[..n], key)
  }

  predicate Distinct(keys: seq<Key>) {
    forall i, j | 0 <= i < j < |keys| :: keys[i] != keys[j]
  }

  lemma WithoutAbsent(keys: seq<Key>, key: Key)
    requires key !in keys
    ensures Without(keys, key) == keys
  {
  }

  lemma DistinctTail(keys: seq<Key>)
    requires Distinct(keys) && keys != []
    ensures Distinct(keys[1..]) && keys[0] !in keys[1..]
  {
  }

  /** With no repetition only one position goes. */
  lemma {:induction false} WithoutAt(keys: seq<Key>, i: nat)
    requires Distinct(keys) && i < |keys|
    ensures Without(keys, keys[i]) == keys[..i] + keys[i + 1..]
  {
    DistinctTail(keys);
    var tail := keys[1..];
    if i == 0 {
      WithoutAbsent(tail, keys[0]);
    } else {
      assert tail[i - 1] == keys[i];
      WithoutAt(tail, i - 1);
      assert keys[0] != keys[i];
      assert [keys[0]] + (tail[..i - 1] + tail[i..]) == keys[..i] + keys[i + 1..];
    }
  }

  lemma WithoutIn(keys: seq<Key>, key: Key)
    ensures forall k :: k in Without(keys, key) <==> k in keys && k != key
  {
  }

  lemma {:induction false} WithoutDistinct(keys: seq<Key>, key: Key)
    requires Distinct(keys)
    ensures Distinct(Without(keys, key))
  {
    if keys != [] {
      DistinctTail(keys);
      WithoutDistinct(keys[1..], key);
      WithoutIn(keys[1..], key);
    }
  }

  lemma MoveDistinct(keys: seq<Key>, key: Key)
    requires Distinct(keys)
    ensures Distinct(MoveToFront(keys, key))
    ensures forall k :: k in MoveToFront(keys, key) <==> k in keys || k == key
  {
    var rest := Without(keys, key);
    WithoutIn(keys, key);
    WithoutDistinct(keys, key);
    assert forall i | 0 <= i < |rest| :: rest[i] in rest;
  }

  lemma {:induction false} RecentDistinct(uses: seq<Key>)
    ensures Distinct(Recent(uses))
    ensures forall k :: k in Recent(uses) <==> k in uses
  {
    if uses != [] {
      var n := |uses| - 1;
      RecentDistinct(uses[..n]);
      MoveDistinct(Recent(uses[..n]), uses[n]);
      assert uses == uses[..n] + [uses[n]];
    }
  }

  function IndexOf(keys: seq<Key>, key: Key): (n: nat)
    ensures n <= |keys|
    ensures n < |keys| ==> keys[n] == key
    ensures n == |keys| ==> key !in keys
  {
    if keys == [] || keys[0] == key then 0 else 1 + IndexOf(keys[1..], key)
  }

  /** Where the key at position `i > 0` stood before the one at `at` moved to the front. */
  function Place(at: nat, i: nat): nat
    requires i > 0
  {
    if i - 1 < at then i - 1 else i
  }

  lemma MovedPlace(keys: seq<Key>, key: Key, i: nat)
    requires Distinct(keys) && 0 < i < |MoveToFront(keys, key)|
    ensures var p := Place(IndexOf(keys, key), i); p < |keys| && MoveToFront(keys, key)[i] == keys[p]
  {
    var at := IndexOf(keys, key);
    if at < |keys| {
      WithoutAt(keys, at);
    } else {
      WithoutAbsent(keys, key);
    }
  }

  /** `Recent` lists every content ever used once, the most recently used first. */
  lemma {:induction false} RecentIsByLastUse(uses: seq<Key>, i: nat, j: nat)
    requires i < j < |Recent(uses)|
    requires Recent(uses)[i] in uses && Recent(uses)[j] in uses
    ensures LastUse(uses, Recent(uses)[i]) > LastUse(uses, Recent(uses)[j])
  {
    var n := |uses| - 1;
    var before, key, r := Recent(uses[..n]), uses[n], Recent(uses);
    RecentDistinct(uses[..n]);
    RecentDistinct(uses);
    assert r[0] == key && r[j] != key;
    var at := IndexOf(before, key);
    MovedPlace(before, key, j);
    assert r[j] in before;
    if i > 0 {
      assert r[i] != key;
      MovedPlace(before, key, i);
      assert r[i] in before;
      RecentIsByLastUse(uses[..n], Place(at, i), Place(at, j));
    }
  }

  // -- the bounded one ---------------------------------------------------------

  lemma KeysAt(entries: seq<Entry>)
    ensures |Keys(entries)| == |entries|
    ensures forall i | 0 <= i < |entries| :: Keys(entries)[i] == KeyOf(entries[i])
  {
  }

  predicate NonePinned(entries: seq<Entry>) {
    forall e | e in entries :: !e.pinned
  }

  lemma {:induction false} TrimOfUnpinned(entries: seq<Entry>)
    requires NonePinned(entries)
    ensures Unpinned(entries) == |entries|
    ensures Trimmed(entries) == if |entries| <= MAX_HISTORY then entries else entries[..MAX_HISTORY]
  {
    if entries != [] {
      var n := |entries| - 1;
      TrimOfUnpinned(entries[..n]);
      LastApart(entries);
      assert entries[n] in entries;
    }
  }

  /** The window moves with the list: what falls out at the end never matters. */
  lemma WindowMoves(keys: seq<Key>, key: Key)
    requires Distinct(keys)
    ensures Window(MoveToFront(keys, key)) ==
            if key in Window(keys) then MoveToFront(Window(keys), key) else Window([key] + Window(keys))
  {
    var w := Window(keys);
    if key in w {
      var i :| 0 <= i < |w| && w[i] == key;
      assert keys[i] == key;
      WithoutAt(keys, i);
      WithoutAt(w, i);
    } else {
      WithoutAbsent(w, key);
      if key in keys {
        var i :| 0 <= i < |keys| && keys[i] == key;
        assert i >= MAX_HISTORY;
        WithoutAt(keys, i);
      } else {
        WithoutAbsent(keys, key);
      }
    }
  }

  lemma MovingKeys(m: Memory, index: nat, time: nat)
    requires DistinctKeys(m.entries) && index < |m.entries|
    ensures Keys(Moving(m, index, time).memory.entries) == MoveToFront(Keys(m.entries), KeyOf(m.entries[index]))
  {
    var entries := Moving(m, index, time).memory.entries;
    MovedFrom(m, index, time);
    hide KeyOf, Moving, Keys, Without;
    KeysAt(m.entries);
    KeysAt(entries);
    var keys := Keys(m.entries);
    assert Distinct(keys);
    WithoutAt(keys, index);
    MoveToFrontAt(keys, Keys(entries), index);
  }

  lemma MoveToFrontAt(keys: seq<Key>, moved: seq<Key>, index: nat)
    requires index < |keys| == |moved|
    requires forall i | 0 <= i < |moved| :: moved[i] == keys[Origin(index, i)]
    ensures moved == [keys[index]] + (keys[..index] + keys[index + 1..])
  {
  }

  lemma TrimmedKeys(entries: seq<Entry>)
    requires NonePinned(entries)
    ensures Keys(Trimmed(entries)) == Window(Keys(entries)) && NonePinned(Trimmed(entries))
  {
    TrimOfUnpinned(entries);
    TrimmedIn(entries);
    hide KeyOf, Keys, Trimmed, Unpinned;
    KeysAt(entries);
    KeysAt(Trimmed(entries));
  }

  lemma KeysCons(e: Entry, entries: seq<Entry>)
    ensures Keys([e] + entries) == [KeyOf(e)] + Keys(entries)
  {
    assert ([e] + entries)[1..] == entries;
  }

  lemma InsertingKeys(m: Memory, e: Entry, data: Bytes)
    requires Sound(m) && e.id == m.nextId && NonePinned(m.entries) && !e.pinned
    ensures Keys(Inserting(m, e, data).memory.entries) == Window([KeyOf(e)] + Keys(m.entries))
    ensures NonePinned(Inserting(m, e, data).memory.entries)
  {
    var grown := [e] + m.entries;
    InsertingIs(m, e, data);
    hide DistinctIds, DistinctKeys, Dropped, Inserting, KeyOf, Keys, Trimmed, Unpinned;
    TrimmedKeys(grown);
    KeysCons(e, m.entries);
  }

  lemma MovingUnpinned(m: Memory, index: nat, time: nat)
    requires NonePinned(m.entries) && index < |m.entries|
    ensures NonePinned(Moving(m, index, time).memory.entries)
  {
    assert m.entries[index] in m.entries;
  }

  /** One more accepted addition. */
  lemma {:induction false} AddStep(m: Memory, add: Op, all: seq<Key>)
    requires add.Add? && Storable(add.kind, add.data, add.blank)
    requires Sound(m) && NonePinned(m.entries) && Distinct(all) && Keys(m.entries) == Window(all)
    ensures var n := Perform(m, add).memory;
            Sound(n) && NonePinned(n.entries) && Keys(n.entries) == Window(MoveToFront(all, DataKey(add.data)))
  {
    var key := DataKey(add.data);
    var index := Find(m.entries, key);
    OperationsKeepSound(m, add);
    WindowMoves(all, key);
    KeysAt(m.entries);
    if index < |m.entries| {
      MovingKeys(m, index, add.time);
      MovingUnpinned(m, index, add.time);
      assert Keys(m.entries)[index] == key;
    } else {
      var e := NewEntry(m, add.kind, add.mime, add.data, add.time);
      InsertingKeys(m, e, add.data);
      assert key !in Window(all);
    }
  }

  function AddAll(m: Memory, adds: seq<Op>): Memory {
    if adds == [] then m else Perform(AddAll(m, adds[..|adds| - 1]), adds[|adds| - 1]).memory
  }

  function AddedKeys(adds: seq<Op>): seq<Key>
    requires forall add | add in adds :: add.Add?
  {
    if adds == [] then []
    else
      var n := |adds| - 1;
      AddedKeys(adds[..n]) + [DataKey(adds[n].data)]
  }

  lemma {:induction false} HistoryIsMostRecent(adds: seq<Op>)
    requires forall add | add in adds :: add.Add? && Storable(add.kind, add.data, add.blank)
    ensures var m := AddAll(Memory([], 1), adds);
            Sound(m) && NonePinned(m.entries) && Keys(m.entries) == Window(Recent(AddedKeys(adds)))
  {
    if adds != [] {
      var n := |adds| - 1;
      HistoryIsMostRecent(adds[..n]);
      var uses := AddedKeys(adds);
      assert uses[..|uses| - 1] == AddedKeys(adds[..n]);
      RecentDistinct(AddedKeys(adds[..n]));
      assert adds[n] in adds;
      AddStep(AddAll(Memory([], 1), adds[..n]), adds[n], Recent(AddedKeys(adds[..n])));
    }
  }
}
