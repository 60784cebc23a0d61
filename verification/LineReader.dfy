/** The bounded line reader of the server (`read_line_bounded` and the read loop of
    `serve_client`, `backend/src/ipc/server.rs`). However the socket cuts the byte
    stream into chunks, the lines are those of the newline split. */
module LineReader {
  import opened Basics

  type Byte = bv8

  type Bytes = seq<Byte>

  const NEWLINE: Byte := 10

  // -- the newline split -------------------------------------------------------

  /** Length of the first line: the position of the first newline, if any. */
  function Cut(bytes: Bytes): (n: nat)
    ensures n <= |bytes|
  {
    if bytes == [] || bytes[0] == NEWLINE then 0 else 1 + Cut(bytes[1..])
  }

  /** What follows the first line and its newline. */
  function Rest(bytes: Bytes): (rest: Bytes)
    ensures bytes != [] ==> |rest| < |bytes|
  {
    if Cut(bytes) == |bytes| then [] else bytes[Cut(bytes) + 1..]
  }

  /** The newline split; a last line without a newline counts unless it is empty. */
  function SplitLines(bytes: Bytes): seq<Bytes>
    decreases |bytes|
  {
    if bytes == [] then [] else [bytes[..Cut(bytes)]] + SplitLines(Rest(bytes))
  }

  /** The lines up to the first that is longer than the limit, and whether there is one. */
  function Bounded(lines: seq<Bytes>, limit: nat): (seq<Bytes>, bool) {
    if lines == [] then ([], false)
    else if |lines[0]| > limit then ([], true)
    else
      var (read, failed) := Bounded(lines[1..], limit);
      ([lines[0]] + read, failed)
  }

  /** Lines as a client writes them. */
  function Encode(lines: seq<Bytes>): Bytes {
    if lines == [] then [] else lines[0] + [NEWLINE] + Encode(lines[1..])
  }

  lemma {:induction false} CutMeaning(bytes: Bytes)
    ensures forall i | 0 <= i < Cut(bytes) :: bytes[i] != NEWLINE
    ensures Cut(bytes) < |bytes| ==> bytes[Cut(bytes)] == NEWLINE
  {
    if bytes != [] && bytes[0] != NEWLINE {
      CutMeaning(bytes[1..]);
      forall i | 0 <= i < Cut(bytes) ensures bytes[i] != NEWLINE {
        if i > 0 {
          assert bytes[i] == bytes[1..][i - 1];
        }
      }
    }
  }

  lemma {:induction false} CutIs(bytes: Bytes, n: nat)
    requires n <= |bytes| && (forall i | 0 <= i < n :: bytes[i] != NEWLINE)
    requires n < |bytes| ==> bytes[n] == NEWLINE
    ensures Cut(bytes) == n
  {
    if n > 0 {
      CutIs(bytes[1..], n - 1);
    }
  }

  /** Splitting what a client wrote gives back its messages. */
  lemma {:induction false} SplitOfEncode(lines: seq<Bytes>)
    requires forall line | line in lines :: NEWLINE !in line
    ensures SplitLines(Encode(lines)) == lines
  {
    if lines != [] {
      var bytes := Encode(lines);
      assert bytes == lines[0] + ([NEWLINE] + Encode(lines[1..]));
      assert bytes[..|lines[0]|] == lines[0];
      assert forall i | 0 <= i < |lines[0]| :: bytes[i] in lines[0];
      CutIs(bytes, |lines[0]|);
      assert Rest(bytes) == Encode(lines[1..]);
      SplitOfEncode(lines[1..]);
    }
  }

  /** A stream that ends with a newline, or is empty. */
  predicate Terminated(bytes: Bytes) {
    bytes == [] || bytes[|bytes| - 1] == NEWLINE
  }

  /** Nothing is lost or invented: writing the split again gives the stream, with its
      missing last newline added. */
  lemma {:induction false} EncodeOfSplit(bytes: Bytes)
    ensures Encode(SplitLines(bytes)) == if Terminated(bytes) then bytes else bytes + [NEWLINE]
    decreases |bytes|
  {
    if bytes != [] {
      EncodeOfSplit(Rest(bytes));
      EncodeCons(bytes[..Cut(bytes)], SplitLines(Rest(bytes)));
      FirstLine(bytes);
    }
  }

  lemma EncodeCons(line: Bytes, lines: seq<Bytes>)
    ensures Encode([line] + lines) == line + [NEWLINE] + Encode(lines)
  {
    assert ([line] + lines)[1..] == lines;
  }

  lemma {:induction false} FirstLine(bytes: Bytes)
    requires bytes != []
    ensures Cut(bytes) == |bytes| ==> bytes[..Cut(bytes)] == bytes && !Terminated(bytes)
    ensures Cut(bytes) < |bytes| ==>
              bytes == bytes[..Cut(bytes)] + [NEWLINE] + Rest(bytes) && Terminated(bytes) == Terminated(Rest(bytes))
  {
    CutMeaning(bytes);
    if Cut(bytes) < |bytes| {
      Rejoin(bytes, Cut(bytes));
    }
  }

  lemma Rejoin(bytes: Bytes, n: nat)
    requires n < |bytes| && bytes[n] == NEWLINE
    ensures bytes == bytes[..n] + [NEWLINE] + bytes[n + 1..]
    ensures Terminated(bytes) == Terminated(bytes[n + 1..])
  {
  }

  lemma {:induction false} LinesHoldNoNewline(bytes: Bytes)
    ensures forall line | line in SplitLines(bytes) :: NEWLINE !in line
    decreases |bytes|
  {
    if bytes != [] {
      LinesHoldNoNewline(Rest(bytes));
      CutMeaning(bytes);
    }
  }

  /** The read lines all fit, they start the split, and reading fails exactly when
      the next line of the split does not fit. */
  lemma {:induction false} BoundedMeaning(lines: seq<Bytes>, limit: nat)
    ensures var (read, failed) := Bounded(lines, limit);
            && read <= lines
            && (forall line | line in read :: |line| <= limit)
            && (failed <==> |read| < |lines|)
            && (failed ==> |lines[|read|]| > limit)
  {
    if lines != [] && |lines[0]| <= limit {
      BoundedMeaning(lines[1..], limit);
      var (read, failed) := Bounded(lines[1..], limit);
      assert lines == [lines[0]] + lines[1..];
      assert [lines[0]] + read == lines[..1 + |read|];
    }
  }

  // -- chunks ------------------------------------------------------------------

  function Flatten(chunks: seq<Bytes>): Bytes {
    if chunks == [] then [] else chunks[0] + Flatten(chunks[1..])
  }

  /** The newline is in the chunk at hand: `buf` and what stands before it are the line. */
  lemma {:induction false} NewlineHere(buf: Bytes, chunk: Bytes, more: Bytes)
    requires Cut(buf) == |buf| && Cut(chunk) < |chunk|
    ensures var bytes, n := buf + (chunk + more), |buf| + Cut(chunk);
            && Cut(bytes) == n
            && bytes[..n] == buf + chunk[..Cut(chunk)]
            && Rest(bytes) == chunk[Cut(chunk) + 1..] + more
  {
    hide Cut;
    CutOfJoined(buf, chunk, more);
    JoinedSlices(buf, chunk, more, Cut(chunk));
  }

  lemma CutOfJoined(buf: Bytes, chunk: Bytes, more: Bytes)
    requires Cut(buf) == |buf| && Cut(chunk) < |chunk|
    ensures Cut(buf + (chunk + more)) == |buf| + Cut(chunk)
  {
    CutMeaning(buf);
    CutMeaning(chunk);
    hide Cut;
    var bytes, n := buf + (chunk + more), |buf| + Cut(chunk);
    forall i | 0 <= i < n ensures bytes[i] != NEWLINE {
      assert bytes[i] == if i < |buf| then buf[i] else chunk[i - |buf|];
    }
    CutIs(bytes, n);
  }

  lemma JoinedSlices(buf: Bytes, chunk: Bytes, more: Bytes, n: nat)
    requires n < |chunk|
    ensures var bytes := buf + (chunk + more);
            bytes[..|buf| + n] == buf + chunk[..n] && bytes[|buf| + n + 1..] == chunk[n + 1..] + more
  {
  }

  /** No newline in it: the whole chunk belongs to the line. */
  lemma NoNewlineHere(buf: Bytes, chunk: Bytes, more: Bytes)
    requires Cut(buf) == |buf| && Cut(chunk) == |chunk|
    ensures Cut(buf + chunk) == |buf| + |chunk|
    ensures buf + (chunk + more) == buf + chunk + more
    ensures Cut(buf + (chunk + more)) >= |buf| + |chunk|
  {
    CutMeaning(buf);
    CutMeaning(chunk);
    CutIs(buf + chunk, |buf| + |chunk|);
    CutMeaning(buf + (chunk + more));
    assert forall i | 0 <= i < |buf| + |chunk| :: (buf + (chunk + more))[i] == (buf + chunk)[i];
  }

  datatype ReadError = TooLong

  /** `line` is the first line of `bytes`, within the limit, and `left` what follows. */
  predicate ReadLineIs(bytes: Bytes, limit: nat, line: Bytes, left: Bytes) {
    bytes != [] && line == bytes[..Cut(bytes)] && |line| <= limit && left == Rest(bytes)
  }

  lemma WholeLine(buf: Bytes, limit: nat)
    requires Cut(buf) == |buf| <= limit
    ensures buf != [] ==> ReadLineIs(buf, limit, buf, [])
  {
  }

  class BufferedReader {
    var chunks: seq<Bytes>  // what the socket will still deliver, cut as it arrives
    var buf: Bytes          // the line being read

    ghost predicate Valid()
      reads this
    {
      forall chunk | chunk in chunks :: chunk != []
    }

    ghost function Pending(): Bytes
      reads this
    {
      Flatten(chunks)
    }

    constructor (chunks: seq<Bytes>)
      requires forall chunk | chunk in chunks :: chunk != []
      ensures Valid() && Pending() == Flatten(chunks)
    {
      this.chunks, buf := chunks, [];
    }

    /** The next chunk, or nothing at the end of the stream. */
    method FillBuf() returns (available: Bytes)
      requires Valid()
      ensures available == if chunks == [] then [] else chunks[0]
      ensures available == [] <==> chunks == []
    {
      if chunks == [] {
        available := [];
      } else {
        available := chunks[0];
        assert chunks[0] in chunks;
      }
    }

    method Consume(taken: nat)
      requires Valid() && chunks != [] && taken <= |chunks[0]|
      modifies this`chunks
      ensures Valid()
      ensures Pending() == old(chunks[0])[taken..] + Flatten(old(chunks)[1..])
    {
      var left := chunks[0][taken..];
      var more := chunks[1..];
      assert forall chunk | chunk in more :: chunk in chunks;
      if left == [] {
        chunks := more;
      } else {
        chunks := [left] + more;
        assert chunks[1..] == more;
      }
    }

    /** One line of at most `limit` bytes into `buf`; false at the end of the stream. */
    method ReadLine(limit: nat) returns (r: Result<bool, ReadError>)
      requires Valid()
      modifies this
      ensures Valid()
      ensures r.Ok? && r.value ==> ReadLineIs(old(Pending()), limit, buf, Pending())
      ensures r == Ok(false) ==> old(Pending()) == [] && Pending() == []
      ensures r.Err? ==> Cut(old(Pending())) > limit
    {
      hide Cut, Rest;
      ghost var bytes := Pending();
      buf := [];
      assert buf + bytes == bytes;
      while true
        invariant Valid() && Cut(buf) == |buf| <= limit
        invariant bytes == buf + Pending()
        decreases |Pending()|
      {
        var available := FillBuf();
        if available == [] {
          assert buf + [] == buf;
          WholeLine(buf, limit);
          return Ok(buf != []);
        }
        ghost var more := Flatten(chunks[1..]);
        var index := Position(available);
        if index < |available| {
          NewlineHere(buf, available, more);
          if |buf| + index > limit {
            return Err(TooLong);
          }
          buf := buf + available[..index];
          Consume(index + 1);
          return Ok(true);
        }
        NoNewlineHere(buf, available, more);
        if |buf| + |available| > limit {
          return Err(TooLong);
        }
        buf := buf + available;
        Consume(|available|);
        assert available[|available|..] + more == more;
      }
    }

    /** `position` of the first newline, or the length when there is none. */
    static method Position(bytes: Bytes) returns (n: nat)
      ensures n == Cut(bytes)
    {
      n := 0;
      while n < |bytes| && bytes[n] != NEWLINE
        invariant n <= |bytes|
        invariant forall i | 0 <= i < n :: bytes[i] != NEWLINE
      {
        n := n + 1;
      }
      CutIs(bytes, n);
    }

    /** The read loop of a connection: lines until the end of input or an error. */
    method ReadAll(limit: nat) returns (lines: seq<Bytes>, failed: bool)
      requires Valid()
      modifies this
      ensures (lines, failed) == Bounded(SplitLines(old(Pending())), limit)
    {
      lines := [];
      assert forall read: seq<Bytes> :: [] + read == read;
      while true
        invariant Valid()
        invariant var (read, broken) := Bounded(SplitLines(Pending()), limit);
                  Bounded(SplitLines(old(Pending())), limit) == (lines + read, broken)
        decreases |Pending()|
      {
        ghost var bytes := Pending();
        var r := ReadLine(limit);
        match r
        case Ok(true) =>
          assert SplitLines(bytes)[0] == buf && SplitLines(bytes)[1..] == SplitLines(Pending());
          ghost var (read, broken) := Bounded(SplitLines(Pending()), limit);
          assert lines + ([buf] + read) == lines + [buf] + read;
          lines := lines + [buf];
        case Ok(false) =>
          assert lines + [] == lines;
          return lines, false;
        case Err(_) =>
          assert bytes != [];
          assert |SplitLines(bytes)[0]| > limit;
          assert lines + [] == lines;
          return lines, true;
      }
    }
  }
}
