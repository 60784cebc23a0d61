/** Lists with distinct ids: trimming, filtering and what both keep. */
module ClipboardLists {
  import opened ClipboardModel

  lemma UnpinnedConcat(a: seq<Entry>, b: seq<Entry>)
    ensures Unpinned(a + b) == Unpinned(a) + Unpinned(b)
    decreases |b|
  {
    if b == [] {
      assert a + b == a;
    } else {
      var n := |b| - 1;
      assert (a + b)[..|a + b| - 1] == a + b[..n];
      UnpinnedConcat(a, b[..n]);
    }
  }

  lemma UnpinnedOne(e: Entry)
    ensures Unpinned([e]) == if e.pinned then 0 else 1
  {
    assert [e][..0] == [];
  }

  lemma LastApart(entries: seq<Entry>)
    requires entries != []
    ensures entries == entries[..|entries| - 1] + [entries[|entries| - 1]]
  {
  }

  // -- filtering by id ---------------------------------------------------------

  lemma {:induction false} KeptAll(entries: seq<Entry>, ids: set<nat>)
    requires Ids(entries) <= ids
    ensures Kept(entries, ids) == entries
  {
    if entries != [] {
      LastApart(entries);
      assert Ids(entries[..|entries| - 1]) <= Ids(entries);
      KeptAll(entries[..|entries| - 1], ids);
      assert entries[|entries| - 1].id in Ids(entries);
    }
  }

  lemma {:induction false} KeptSame(entries: seq<Entry>, a: set<nat>, b: set<nat>)
    requires forall e | e in entries :: e.id in a <==> e.id in b
    ensures Kept(entries, a) == Kept(entries, b)
  {
    if entries != [] {
      KeptSame(entries[..|entries| - 1], a, b);
    }
  }

  lemma {:induction false} KeptTwice(entries: seq<Entry>, a: set<nat>, b: set<nat>)
    ensures Kept(Kept(entries, a), b) == Kept(entries, a * b)
  {
    if entries != [] {
      var n := |entries| - 1;
      KeptTwice(entries[..n], a, b);
      if entries[n].id in a {
        var kept := Kept(entries[..n], a);
        assert (kept + [entries[n]])[..|kept|] == kept;
      } else {
        assert Kept(entries[..n], a) + [] == Kept(entries[..n], a);
      }
    }
  }

  lemma IdsKept(entries: seq<Entry>, ids: set<nat>)
    ensures Ids(Kept(entries, ids)) == Ids(entries) * ids
  {
  }

  /** One more entry that differs from all before it. */
  lemma DistinctAppend(entries: seq<Entry>, last: Entry)
    requires forall e | e in entries :: e.id != last.id
    ensures DistinctIds(entries) ==> DistinctIds(entries + [last])
  {
    assert forall i | 0 <= i < |entries| :: entries[i] in entries;
  }

  lemma DistinctKeysAppend(entries: seq<Entry>, last: Entry)
    requires forall e | e in entries :: KeyOf(e) != KeyOf(last)
    ensures DistinctKeys(entries) ==> DistinctKeys(entries + [last])
  {
    assert forall i | 0 <= i < |entries| :: entries[i] in entries;
  }

  /** Dropping entries keeps ids distinct ... */
  lemma {:induction false} KeptDistinctIds(entries: seq<Entry>, ids: set<nat>)
    requires DistinctIds(entries)
    ensures DistinctIds(Kept(entries, ids))
  {
    if entries != [] {
      var n := |entries| - 1;
      KeptDistinctIds(entries[..n], ids);
      if entries[n].id in ids {
        DistinctAppend(Kept(entries[..n], ids), entries[n]);
      }
    }
  }

  /** ... and keys ... */
  lemma {:induction false} KeptDistinctKeys(entries: seq<Entry>, ids: set<nat>)
    requires DistinctKeys(entries)
    ensures DistinctKeys(Kept(entries, ids))
  {
    hide KeyOf;
    if entries != [] {
      var n := |entries| - 1;
      KeptDistinctKeys(entries[..n], ids);
      if entries[n].id in ids {
        DistinctKeysAppend(Kept(entries[..n], ids), entries[n]);
      }
    }
  }

  lemma KeptDistinct(entries: seq<Entry>, ids: set<nat>)
    ensures DistinctIds(entries) ==> DistinctIds(Kept(entries, ids))
    ensures DistinctKeys(entries) ==> DistinctKeys(Kept(entries, ids))
  {
    if DistinctIds(entries) {
      KeptDistinctIds(entries, ids);
    }
    if DistinctKeys(entries) {
      KeptDistinctKeys(entries, ids);
    }
  }

  /** ... and no count grows. */
  lemma {:induction false} KeptCounts(entries: seq<Entry>, ids: set<nat>)
    ensures var kept := Kept(entries, ids);
            Unpinned(kept) <= Unpinned(entries) && |kept| - Unpinned(kept) <= |entries| - Unpinned(entries)
  {
    if entries != [] {
      var n := |entries| - 1;
      KeptCounts(entries[..n], ids);
      CountsAppend(Kept(entries[..n], ids), entries[n]);
    }
  }

  lemma CountsAppend(entries: seq<Entry>, e: Entry)
    ensures Unpinned(entries + [e]) == Unpinned(entries) + if e.pinned then 0 else 1
    ensures entries + [] == entries
  {
    UnpinnedConcat(entries, [e]);
    UnpinnedOne(e);
  }

  // -- trim --------------------------------------------------------------------

  lemma {:induction false} TrimmedCounts(entries: seq<Entry>)
    ensures var t := Trimmed(entries);
            && Unpinned(t) == (if Unpinned(entries) <= MAX_HISTORY then Unpinned(entries) else MAX_HISTORY)
            && |t| - Unpinned(t) == |entries| - Unpinned(entries)
  {
    if entries != [] {
      var n := |entries| - 1;
      TrimmedCounts(entries[..n]);
      CountsAppend(Trimmed(entries[..n]), entries[n]);
    }
  }

  /** Exactly the unpinned entries beyond the cap are dropped: an entry survives iff it
      is pinned or fewer than MAX_HISTORY unpinned entries stand before it. */
  lemma {:induction false} TrimDropsExactly(entries: seq<Entry>, i: nat)
    requires DistinctIds(entries) && i < |entries|
    ensures entries[i] in Trimmed(entries) <==> entries[i].pinned || Unpinned(entries[..i]) < MAX_HISTORY
    ensures entries[i].id in Dropped(entries) <==> !(entries[i].pinned || Unpinned(entries[..i]) < MAX_HISTORY)
  {
    var n := |entries| - 1;
    TrimmedIn(entries[..n]);
    if i < n {
      TrimDropsExactly(entries[..n], i);
      assert entries[..n][..i] == entries[..i];
      assert entries[n].id != entries[i].id;
    } else {
      forall e | e in entries[..n] ensures e.id != entries[n].id {
        var k :| 0 <= k < n && entries[..n][k] == e;
        assert entries[k].id != entries[n].id;
      }
    }
  }

  lemma {:induction false} TrimmedIn(entries: seq<Entry>)
    ensures forall e | e in Trimmed(entries) :: e in entries
    ensures forall id | id in Dropped(entries) :: id in Ids(entries)
  {
    if entries != [] {
      TrimmedIn(entries[..|entries| - 1]);
      assert Ids(entries[..|entries| - 1]) <= Ids(entries);
      assert entries[|entries| - 1].id in Ids(entries);
    }
  }

  /** `trim` is a removal of the dropped ids and nothing else: order is kept. */
  lemma {:induction false} TrimmedIsKept(entries: seq<Entry>)
    requires DistinctIds(entries)
    ensures WithoutDropped(entries) == Trimmed(entries)
  {
    if entries != [] {
      var n := |entries| - 1;
      var front, last := entries[..n], entries[n];
      TrimmedIsKept(front);
      TrimmedIn(front);
      forall e | e in front ensures e.id != last.id && e.id in Ids(entries) && e.id in Ids(front) {
        var k :| 0 <= k < n && front[k] == e;
        assert entries[k].id != last.id;
      }
      KeptSame(front, Ids(front) - AsSet(Dropped(front)), Ids(entries) - AsSet(Dropped(entries)));
      TrimDropsExactly(entries, n);
      assert last.id in Ids(entries);
    }
  }

  lemma {:induction false} PinnedOnlyIsKept(entries: seq<Entry>)
    requires DistinctIds(entries)
    ensures PinnedOnly(entries) == Kept(entries, Ids(entries) - AsSet(UnpinnedIds(entries)))
    ensures AsSet(UnpinnedIds(entries)) <= Ids(entries)
  {
    if entries != [] {
      var n := |entries| - 1;
      var front, last := entries[..n], entries[n];
      PinnedOnlyIsKept(front);
      forall e | e in front ensures e.id != last.id && e.id in Ids(entries) && e.id in Ids(front) {
        var k :| 0 <= k < n && front[k] == e;
        assert entries[k].id != last.id;
      }
      assert Ids(front) <= Ids(entries);
      assert AsSet(UnpinnedIds(entries)) <= AsSet(UnpinnedIds(front)) + {last.id};
      KeptSame(front, Ids(front) - AsSet(UnpinnedIds(front)), Ids(entries) - AsSet(UnpinnedIds(entries)));
      assert last.id in Ids(entries);
    }
  }

  lemma {:induction false} PinnedOnlyMeans(entries: seq<Entry>)
    ensures forall e :: e in PinnedOnly(entries) <==> e in entries && e.pinned
  {
    if entries != [] {
      LastApart(entries);
      PinnedOnlyMeans(entries[..|entries| - 1]);
    }
  }
}
