/** What the fingerprint of a content tells: contents that differ in one byte never have
    the same, so the history never takes the one for the other. */
module Fingerprints {
  import opened Basics
  import opened ClipboardModel
  import opened ClipboardLists
  import opened ClipboardInvariant
  import opened ClipboardMeaning

  // -- one step ----------------------------------------------------------------

  /** The prime times this is one more than a multiple of 2^64. */
  const INVERSE: nat := 0xce96_5057_aff6_957b

  /** Multiplying by the prime can be undone. */
  lemma TimesPrimeBack(word: nat)
    requires word < TWO_TO_THE_64
    ensures (word * FNV_PRIME % TWO_TO_THE_64) * INVERSE % TWO_TO_THE_64 == word
  {
    var whole := word * FNV_PRIME / TWO_TO_THE_64;
    var rest := word * FNV_PRIME % TWO_TO_THE_64;
    assert rest == word * FNV_PRIME - TWO_TO_THE_64 * whole;
    var k := (FNV_PRIME * INVERSE) / TWO_TO_THE_64;
    assert FNV_PRIME * INVERSE == TWO_TO_THE_64 * k + 1;
    assert rest * INVERSE == word + TWO_TO_THE_64 * (k * word - whole * INVERSE);
    Remainder(rest * INVERSE, k * word - whole * INVERSE, word);
  }

  lemma Remainder(n: int, quotient: int, rest: nat)
    requires n == rest + TWO_TO_THE_64 * quotient && rest < TWO_TO_THE_64
    ensures n % TWO_TO_THE_64 == rest
  {
  }

  // -- exclusive or ------------------------------------------------------------

  function Two(bits: nat): (p: nat)
    ensures p >= 1
  {
    if bits == 0 then 1 else 2 * Two(bits - 1)
  }

  lemma WordIsTwo()
    ensures Two(64) == TWO_TO_THE_64
  {
    assert Two(4) == 16;
    TwoSum(4, 4);
    TwoSum(8, 8);
    TwoSum(16, 16);
    TwoSum(32, 32);
  }

  predicate Bit(n: nat, i: nat) {
    if i == 0 then n % 2 == 1 else Bit(n / 2, i - 1)
  }

  /** Bit by bit: set where exactly one of the two is. */
  lemma {:induction false} XorMeans(a: nat, b: nat, bits: nat, i: nat)
    ensures Bit(Xor(a, b, bits), i) <==> i < bits && Bit(a, i) != Bit(b, i)
  {
    if bits == 0 {
      NoBit(i);
    } else {
      Halved(Xor(a / 2, b / 2, bits - 1), a, b);
      if i > 0 {
        hide Xor, Bit;
        BitStep(Xor(a, b, bits), i);
        BitStep(a, i);
        BitStep(b, i);
        XorMeans(a / 2, b / 2, bits - 1, i - 1);
      }
    }
  }

  lemma Halved(high: nat, a: nat, b: nat)
    ensures var n := 2 * high + (a + b) % 2; n / 2 == high && (n % 2 == 1 <==> (a % 2 == 1) != (b % 2 == 1))
  {
  }

  lemma BitStep(n: nat, i: nat)
    requires i > 0
    ensures Bit(n, i) <==> Bit(n / 2, i - 1)
  {
  }

  lemma {:induction false} NoBit(i: nat)
    ensures !Bit(0, i)
  {
    if i > 0 {
      NoBit(i - 1);
    }
  }

  lemma {:induction false} XorFits(a: nat, b: nat, bits: nat)
    ensures Xor(a, b, bits) < Two(bits)
  {
    if bits > 0 {
      XorFits(a / 2, b / 2, bits - 1);
    }
  }

  /** With one side known, the result gives the other. */
  lemma {:induction false} XorIsInjective(a: nat, other: nat, b: nat, bits: nat)
    requires a < Two(bits) && other < Two(bits) && Xor(a, b, bits) == Xor(other, b, bits)
    ensures a == other
  {
    if bits > 0 {
      SameLowBit(Xor(a / 2, b / 2, bits - 1), Xor(other / 2, b / 2, bits - 1), a, other, b);
      XorIsInjective(a / 2, other / 2, b / 2, bits - 1);
    }
  }

  lemma SameLowBit(high: nat, otherHigh: nat, a: nat, other: nat, b: nat)
    requires 2 * high + (a + b) % 2 == 2 * otherHigh + (other + b) % 2
    ensures high == otherHigh && a % 2 == other % 2
  {
  }

  lemma {:induction false} XorCommutes(a: nat, b: nat, bits: nat)
    ensures Xor(a, b, bits) == Xor(b, a, bits)
  {
    if bits > 0 {
      XorCommutes(a / 2, b / 2, bits - 1);
    }
  }

  lemma ByteFits(byte: Byte)
    ensures byte as nat < TWO_TO_THE_64
  {
  }

  /** The step loses neither the hash nor the byte. */
  lemma MixIsInjective(hash: nat, byte: Byte, other: nat, another: Byte)
    requires hash < TWO_TO_THE_64 && other < TWO_TO_THE_64
    requires Mix(hash, byte) == Mix(other, another)
    ensures byte == another ==> hash == other
    ensures hash == other ==> byte == another
  {
    hide Xor, Two;
    WordIsTwo();
    XorFits(hash, byte as nat, 64);
    XorFits(other, another as nat, 64);
    TimesPrimeBack(Xor(hash, byte as nat, 64));
    TimesPrimeBack(Xor(other, another as nat, 64));
    ByteFits(byte);
    ByteFits(another);
    if byte == another {
      XorIsInjective(hash, other, byte as nat, 64);
    } else if hash == other {
      XorCommutes(hash, byte as nat, 64);
      XorCommutes(hash, another as nat, 64);
      XorIsInjective(byte as nat, another as nat, hash, 64);
    }
  }

  // -- whole contents ----------------------------------------------------------

  lemma FingerprintFits(data: Bytes)
    ensures Fingerprint(data) < TWO_TO_THE_64
  {
  }

  /** What follows two contents neither hides nor makes a difference between them. */
  lemma {:induction false} SameTail(a: Bytes, b: Bytes, tail: Bytes)
    ensures Fingerprint(a + tail) == Fingerprint(b + tail) <==> Fingerprint(a) == Fingerprint(b)
  {
    hide Mix;
    if tail == [] {
      assert a + tail == a && b + tail == b;
    } else {
      var n := |tail| - 1;
      assert (a + tail)[..|a| + n] == a + tail[..n] && (b + tail)[..|b| + n] == b + tail[..n];
      SameTail(a, b, tail[..n]);
      FingerprintFits(a + tail[..n]);
      FingerprintFits(b + tail[..n]);
      if Fingerprint(a + tail) == Fingerprint(b + tail) {
        MixIsInjective(Fingerprint(a + tail[..n]), tail[n], Fingerprint(b + tail[..n]), tail[n]);
      }
    }
  }

  /** The same length, and one byte that differs. */
  predicate OneByteApart(a: Bytes, b: Bytes) {
    |a| == |b| && exists k :: 0 <= k < |a| && DifferAt(a, b, k)
  }

  predicate DifferAt(a: Bytes, b: Bytes, k: nat)
    requires k < |a| == |b|
  {
    a[k] != b[k] && forall i | 0 <= i < |a| && i != k :: a[i] == b[i]
  }

  /** Contents that differ in one byte have different fingerprints. */
  lemma OneByteShows(a: Bytes, b: Bytes)
    requires OneByteApart(a, b)
    ensures Fingerprint(a) != Fingerprint(b)
  {
    hide Mix;
    var k :| 0 <= k < |a| && DifferAt(a, b, k);
    var before, tail := a[..k], a[k + 1..];
    assert a == before + [a[k]] + tail && b == before + [b[k]] + tail;
    assert (before + [a[k]])[..k] == before && (before + [b[k]])[..k] == before;
    FingerprintFits(before);
    if Fingerprint(before + [a[k]]) == Fingerprint(before + [b[k]]) {
      MixIsInjective(Fingerprint(before), a[k], Fingerprint(before), b[k]);
    }
    SameTail(before + [a[k]], before + [b[k]], tail);
  }

  /** Two contents with the same fingerprint and length: the second is taken for the first. */
  predicate Collide(a: Bytes, b: Bytes) {
    Fingerprint(a) == Fingerprint(b) && |a| == |b|
  }

  lemma FirstAdded(nextId: nat, kind: Kind, mime: string, data: Bytes, time: nat)
    requires !Refused(kind, data, false)
    ensures var e := Entry(nextId, kind, mime, |data|, Fingerprint(data), time, false);
            Adding(Memory([], nextId), kind, mime, data, time, false).0.memory == Memory([e], nextId + 1)
  {
    hide Fingerprint, Dropped, Removals, WithoutDropped;
    AddMeans(Memory([], nextId), kind, mime, data, time, false);
    var e := Entry(nextId, kind, mime, |data|, Fingerprint(data), time, false);
    assert [e] + [] == [e] && [e][..0] == [];
  }

  lemma TwoAreKept(a: Entry, b: Entry)
    ensures Trimmed([a] + [b]) == [a, b]
  {
    var one, two := [a], [a, b];
    UnpinnedOne(a);
    assert one[..0] == [] && Trimmed(one[..0]) == [] && Unpinned(one[..0]) == 0;
    assert Trimmed(one) == [] + [a];
    assert two == [a] + [b] && two[..1] == one;
    assert Trimmed(two) == Trimmed(two[..1]) + [b];
  }

  lemma OneIsSound(e: Entry)
    requires !e.pinned
    ensures Sound(Memory([e], e.id + 1))
  {
    UnpinnedOne(e);
  }

  /** Two contents added to an empty history: the second is listed on its own unless the two
      collide, and contents one byte apart never do. */
  lemma BothAreListed(nextId: nat, kind: Kind, mime: string, first: Bytes, second: Bytes, time: nat, later: nat)
    requires !Refused(kind, first, false) && !Refused(kind, second, false)
    ensures var m := Adding(Memory([], nextId), kind, mime, first, time, false).0.memory;
            var (o, added) := Adding(m, kind, mime, second, later, false);
            if Collide(first, second) then added == Moved(nextId) && |o.memory.entries| == 1
            else
              && added == New(nextId + 1)
              && |o.memory.entries| == 2
              && KeyOf(o.memory.entries[0]) == Key(Fingerprint(second), |second|)
              && KeyOf(o.memory.entries[1]) == Key(Fingerprint(first), |first|)
    ensures OneByteApart(first, second) ==> !Collide(first, second)
  {
    hide Fingerprint, Trimmed, Dropped, Removals, WithoutDropped, Adding;
    FirstAdded(nextId, kind, mime, first, time);
    var m := Adding(Memory([], nextId), kind, mime, first, time, false).0.memory;
    var a := m.entries[0];
    OneIsSound(a);
    AddMeans(m, kind, mime, second, later, false);
    TwoAreKept(Entry(nextId + 1, kind, mime, |second|, Fingerprint(second), later, false), a);
    if OneByteApart(first, second) {
      OneByteShows(first, second);
    }
    assert a in m.entries;
  }

  /** In any history: a content one byte apart from every listed content of its size is new
      and is listed first. `contents` says what each entry was added for. */
  lemma OneByteApartIsNew(m: Memory, contents: map<nat, Bytes>, kind: Kind, mime: string, data: Bytes, time: nat, blank: bool)
    requires Sound(m) && !Refused(kind, data, blank)
    requires forall e | e in m.entries :: e.id in contents && KeyOf(e) == DataKey(contents[e.id])
    requires forall e | e in m.entries && e.size == |data| :: OneByteApart(contents[e.id], data)
    ensures var (o, added) := Adding(m, kind, mime, data, time, blank);
            && added == New(m.nextId)
            && o.memory.entries != [] && o.memory.entries[0].id == m.nextId && KeyOf(o.memory.entries[0]) == DataKey(data)
  {
    hide Fingerprint, Trimmed, Dropped, Removals, WithoutDropped, OneByteApart;
    forall e | e in m.entries ensures KeyOf(e) != DataKey(data) {
      if e.size == |data| {
        OneByteShows(contents[e.id], data);
      }
    }
    AddMeans(m, kind, mime, data, time, blank);
    FirstStays(Entry(m.nextId, kind, mime, |data|, Fingerprint(data), time, false), m.entries);
  }

  lemma {:induction false} XorZero(a: nat, bits: nat)
    requires a < Two(bits)
    ensures Xor(a, 0, bits) == a
  {
    if bits > 0 {
      XorZero(a / 2, bits - 1);
    }
  }

  lemma {:induction false} TwoSum(a: nat, b: nat)
    ensures Two(a + b) == Two(a) * Two(b)
  {
    if b > 0 {
      TwoSum(a, b - 1);
      assert Two(a + b) == 2 * Two(a + b - 1);
    }
  }

  /** The first hash with the letter a xored in. */
  lemma FirstXor()
    ensures Xor(FNV_OFFSET, 0x61, 64) == 0xcbf29ce484222344
  {
    WordIsTwo();
    assert Two(64) == 128 * Two(57) by {
      TwoSum(7, 57);
      assert Two(7) == 128;
    }
    XorZero(0x197e539c9084446, 57);
    assert Xor(0x32fca739210888c, 0x1, 58) == 0x32fca739210888d;
    assert Xor(0x65f94e724211119, 0x3, 59) == 0x65f94e72421111a;
    assert Xor(0xcbf29ce48422232, 0x6, 60) == 0xcbf29ce48422234;
    assert Xor(0x197e539c90844464, 0xc, 61) == 0x197e539c90844468;
    assert Xor(0x32fca739210888c9, 0x18, 62) == 0x32fca739210888d1;
    assert Xor(0x65f94e7242111192, 0x30, 63) == 0x65f94e72421111a2;
    assert Xor(0xcbf29ce484222325, 0x61, 64) == 0xcbf29ce484222344;
  }

  /** The FNV-1a reference value for "a". */
  lemma ReferenceValue()
    ensures Fingerprint([0x61]) == 0xaf63_dc4c_8601_ec8c
  {
    hide Xor;
    FirstXor();
    assert [0x61 as Byte][..0] == [];
  }
}
