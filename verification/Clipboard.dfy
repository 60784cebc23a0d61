/** The clipboard history (`backend/src/modules/clipboard/store.rs`): the list in
    memory, its index file and one blob file per entry. */
module ClipboardModel {
  import opened Basics

  newtype Byte = n: int | 0 <= n < 256

  type Bytes = seq<Byte>

  const MAX_HISTORY: nat := 100
  const MAX_PINNED: nat := 25
  const MAX_ENTRY_BYTES: nat := 5 * 1024 * 1024

  datatype Kind = Text | Image

  datatype Entry = Entry(id: nat, kind: Kind, mime: string, size: nat, hash: nat, time: nat, pinned: bool)

  /** What makes two contents the same for the history. */
  datatype Key = Key(hash: nat, size: nat)

  datatype Memory = Memory(entries: seq<Entry>, nextId: nat)

  /** The files that matter. A missing index reads as an empty one. */
  datatype Disk = Disk(index: seq<Entry>, blobs: map<nat, Bytes>)

  /** One file operation. Atomic writes are a temporary file and a rename; the
      temporary file is never read. */
  datatype FileStep =
    | WriteTemporary
    | RenameBlob(id: nat, data: Bytes)
    | RemoveBlob(id: nat)
    | RenameIndex(entries: seq<Entry>)

  datatype Added = New(id: nat) | Moved(id: nat) | Skipped

  datatype PinError = NotFound | Full

  // -- keys and lists ----------------------------------------------------------

  const FNV_OFFSET: nat := 0xcbf2_9ce4_8422_2325
  const FNV_PRIME: nat := 0x0100_0000_01b3
  const TWO_TO_THE_64: nat := 0x1_0000_0000_0000_0000

  /** Exclusive or of the lowest `bits` bits. */
  function Xor(a: nat, b: nat, bits: nat): nat {
    if bits == 0 then 0 else 2 * Xor(a / 2, b / 2, bits - 1) + (a + b) % 2
  }

  /** One FNV-1a step on a 64-bit word: the multiplication wraps. */
  function Mix(hash: nat, byte: Byte): nat {
    Xor(hash, byte as nat, 64) * FNV_PRIME % TWO_TO_THE_64
  }

  /** FNV-1a over 64 bits. */
  function Fingerprint(data: Bytes): nat {
    if data == [] then FNV_OFFSET else Mix(Fingerprint(data[..|data| - 1]), data[|data| - 1])
  }

  function KeyOf(e: Entry): Key {
    Key(e.hash, e.size)
  }

  function DataKey(data: Bytes): Key {
    Key(Fingerprint(data), |data|)
  }

  function Ids(entries: seq<Entry>): set<nat> {
    set e | e in entries :: e.id
  }

  function Keys(entries: seq<Entry>): seq<Key> {
    if entries == [] then [] else [KeyOf(entries[0])] + Keys(entries[1..])
  }

  function Unpinned(entries: seq<Entry>): nat {
    if entries == [] then 0 else Unpinned(entries[..|entries| - 1]) + if entries[|entries| - 1].pinned then 0 else 1
  }

  /** Position of the first entry with the key, or the length. */
  function Find(entries: seq<Entry>, key: Key): (n: nat)
    ensures n <= |entries|
    ensures n < |entries| ==> KeyOf(entries[n]) == key
    ensures forall i | 0 <= i < n :: KeyOf(entries[i]) != key
  {
    if entries == [] || KeyOf(entries[0]) == key then 0 else 1 + Find(entries[1..], key)
  }

  function FindId(entries: seq<Entry>, id: nat): (n: nat)
    ensures n <= |entries|
    ensures n < |entries| ==> entries[n].id == id
    ensures forall i | 0 <= i < n :: entries[i].id != id
  {
    if entries == [] || entries[0].id == id then 0 else 1 + FindId(entries[1..], id)
  }

  /** The entries whose id is in `ids`, in order. */
  function Kept(entries: seq<Entry>, ids: set<nat>): (kept: seq<Entry>)
    ensures forall e :: e in kept <==> e in entries && e.id in ids
  {
    if entries == [] then []
    else
      var n := |entries| - 1;
      Kept(entries[..n], ids) + if entries[n].id in ids then [entries[n]] else []
  }

  function PinnedOnly(entries: seq<Entry>): seq<Entry> {
    if entries == [] then []
    else
      var n := |entries| - 1;
      PinnedOnly(entries[..n]) + if entries[n].pinned then [entries[n]] else []
  }

  /** What trimming is for: pinned entries stay, and so do the first MAX_HISTORY others. */
  function Trimmed(entries: seq<Entry>): seq<Entry> {
    if entries == [] then []
    else
      var n := |entries| - 1;
      Trimmed(entries[..n]) +
      if entries[n].pinned || Unpinned(entries[..n]) < MAX_HISTORY then [entries[n]] else []
  }

  /** The ids `trim` drops, in list order. */
  function Dropped(entries: seq<Entry>): seq<nat> {
    if entries == [] then []
    else
      var n := |entries| - 1;
      Dropped(entries[..n]) +
      if entries[n].pinned || Unpinned(entries[..n]) < MAX_HISTORY then [] else [entries[n].id]
  }

  function AsSet(ids: seq<nat>): set<nat> {
    set id | id in ids
  }

  /** `trim`: it goes by id, so in a list with repeated ids more than the surplus goes. */
  function WithoutDropped(entries: seq<Entry>): seq<Entry> {
    Kept(entries, Ids(entries) - AsSet(Dropped(entries)))
  }

  // -- files -------------------------------------------------------------------

  function ApplyStep(d: Disk, step: FileStep): Disk {
    match step
    case WriteTemporary => d
    case RenameBlob(id, data) => d.(blobs := d.blobs[id := data])
    case RemoveBlob(id) => d.(blobs := d.blobs - {id})
    case RenameIndex(entries) => d.(index := entries)
  }

  function ApplySteps(d: Disk, steps: seq<FileStep>): Disk {
    if steps == [] then d
    else ApplyStep(ApplySteps(d, steps[..|steps| - 1]), steps[|steps| - 1])
  }

  function Removals(ids: seq<nat>): (steps: seq<FileStep>)
    ensures |steps| == |ids|
  {
    if ids == [] then [] else Removals(ids[..|ids| - 1]) + [RemoveBlob(ids[|ids| - 1])]
  }

  function Save(entries: seq<Entry>): seq<FileStep> {
    [WriteTemporary, RenameIndex(entries)]
  }

  function MaxId(entries: seq<Entry>): (n: nat)
    ensures forall e | e in entries :: e.id <= n
    ensures entries != [] ==> exists e | e in entries :: e.id == n
  {
    if entries == [] then 0
    else
      var last := entries[|entries| - 1];
      var rest := MaxId(entries[..|entries| - 1]);
      if last.id >= rest then last.id
      else
        assert exists e | e in entries[..|entries| - 1] :: e.id == rest;
        rest
  }

  /** `open`: the index without the entries whose blob is gone. */
  function Open(d: Disk): Memory {
    var entries := Kept(d.index, d.blobs.Keys);
    Memory(entries, MaxId(entries) + 1)
  }

  // -- operations --------------------------------------------------------------

  /** What an operation leaves in memory and the file steps it makes, in order. */
  datatype Outcome = Outcome(memory: Memory, steps: seq<FileStep>)

  /** `blank` says that the text is all white space once decoded. */
  predicate Storable(kind: Kind, data: Bytes, blank: bool) {
    data != [] && |data| <= MAX_ENTRY_BYTES && !(kind.Text? && blank)
  }

  function Moving(m: Memory, index: nat, time: nat): Outcome
    requires index < |m.entries|
  {
    var entries := [m.entries[index].(time := time)] + m.entries[..index] + m.entries[index + 1..];
    Outcome(m.(entries := entries), Save(entries))
  }

  function NewEntry(m: Memory, kind: Kind, mime: string, data: Bytes, time: nat): Entry {
    Entry(m.nextId, kind, mime, |data|, Fingerprint(data), time, false)
  }

  function Inserting(m: Memory, e: Entry, data: Bytes): Outcome {
    var grown := [e] + m.entries;
    Outcome(Memory(WithoutDropped(grown), m.nextId + 1),
            [WriteTemporary, RenameBlob(e.id, data)] + Removals(Dropped(grown)) + Save(WithoutDropped(grown)))
  }

  function Adding(m: Memory, kind: Kind, mime: string, data: Bytes, time: nat, blank: bool): (Outcome, Added) {
    if !Storable(kind, data, blank) then (Outcome(m, []), Skipped)
    else
      var index := Find(m.entries, DataKey(data));
      if index < |m.entries| then (Moving(m, index, time), Moved(m.entries[index].id))
      else (Inserting(m, NewEntry(m, kind, mime, data, time), data), New(m.nextId))
  }

  function Deleting(m: Memory, id: nat): Outcome {
    if id !in Ids(m.entries) then Outcome(m, [])
    else
      var entries := Kept(m.entries, Ids(m.entries) - {id});
      Outcome(m.(entries := entries), [RemoveBlob(id)] + Save(entries))
  }

  function UnpinnedIds(entries: seq<Entry>): seq<nat> {
    if entries == [] then []
    else
      var n := |entries| - 1;
      UnpinnedIds(entries[..n]) + if entries[n].pinned then [] else [entries[n].id]
  }

  function Clearing(m: Memory): Outcome {
    var entries := PinnedOnly(m.entries);
    Outcome(m.(entries := entries), Removals(UnpinnedIds(m.entries)) + Save(entries))
  }

  function Pinning(m: Memory, id: nat, pinned: bool): (Outcome, Result<bool, PinError>) {
    var index := FindId(m.entries, id);
    if index == |m.entries| then (Outcome(m, []), Err(NotFound))
    else if m.entries[index].pinned == pinned then (Outcome(m, []), Ok(false))
    else if pinned && |m.entries| - Unpinned(m.entries) >= MAX_PINNED then (Outcome(m, []), Err(Full))
    else
      var marked := m.entries[index := m.entries[index].(pinned := pinned)];
      if pinned then (Outcome(m.(entries := marked), Save(marked)), Ok(true))
      else
        (Outcome(m.(entries := WithoutDropped(marked)), Removals(Dropped(marked)) + Save(WithoutDropped(marked))), Ok(true))
  }

  datatype Op =
    | Add(kind: Kind, mime: string, data: Bytes, time: nat, blank: bool)
    | Delete(id: nat)
    | Clear
    | SetPinned(id: nat, pinned: bool)

  function Perform(m: Memory, op: Op): Outcome {
    match op
    case Add(kind, mime, data, time, blank) => Adding(m, kind, mime, data, time, blank).0
    case Delete(id) => Deleting(m, id)
    case Clear => Clearing(m)
    case SetPinned(id, pinned) => Pinning(m, id, pinned).0
  }

  // -- invariants --------------------------------------------------------------

  predicate DistinctIds(entries: seq<Entry>) {
    forall i, j | 0 <= i < j < |entries| :: entries[i].id != entries[j].id
  }

  predicate DistinctKeys(entries: seq<Entry>) {
    forall i, j | 0 <= i < j < |entries| :: KeyOf(entries[i]) != KeyOf(entries[j])
  }

  /** What every operation keeps. */
  predicate Sound(m: Memory) {
    && DistinctIds(m.entries)
    && DistinctKeys(m.entries)
    && (forall e | e in m.entries :: e.id < m.nextId)
    && Unpinned(m.entries) <= MAX_HISTORY
    && |m.entries| - Unpinned(m.entries) <= MAX_PINNED
  }

  /** The index is the list and every listed entry has its blob. */
  predicate Covers(d: Disk, m: Memory) {
    d.index == m.entries && Ids(m.entries) <= d.blobs.Keys
  }

  /** ... and there are no other blobs. */
  predicate Agrees(d: Disk, m: Memory) {
    d.index == m.entries && Ids(m.entries) == d.blobs.Keys
  }
}
