/** The framing of a buffer for the virus scanner's INSTREAM command, and a reader that recovers the buffer. */
module Instream {
  import opened Wrappers

  type Byte = b: int | 0 <= b < 256

  type Bytes = seq<Byte>

  const CHUNK_SIZE := 65_536

  /** `zINSTREAM` and a NUL byte. */
  const COMMAND: Bytes := [122, 73, 78, 83, 84, 82, 69, 65, 77, 0]

  /** The text in ASCII. */
  predicate Spells(bytes: Bytes, text: string) {
    |bytes| == |text| && forall i | 0 <= i < |text| :: bytes[i] as int == text[i] as int
  }

  const TERMINATOR: Bytes := [0, 0, 0, 0]

  class Socket {
    var sent: Bytes

    constructor ()
      ensures sent == []
    {
      sent := [];
    }

    method Write(bytes: Bytes)
      modifies this
      ensures sent == old(sent) + bytes
    {
      sent := sent + bytes;
    }
  }

  /** `writeUInt32BE` */
  function BigEndian(n: nat): (bytes: Bytes)
    requires n < 0x1_0000_0000
    ensures |bytes| == 4
  {
    [n / 0x100_0000, n / 0x1_0000 % 0x100, n / 0x100 % 0x100, n % 0x100]
  }

  function FromBigEndian(bytes: Bytes): nat
    requires |bytes| == 4
  {
    bytes[0] as int * 0x100_0000 + bytes[1] as int * 0x1_0000 + bytes[2] as int * 0x100 + bytes[3]
  }

  lemma BigEndianRoundTrip(n: nat)
    requires n < 0x1_0000_0000
    ensures FromBigEndian(BigEndian(n)) == n
  {
    assert n == n / 0x100 * 0x100 + n % 0x100;
    assert n / 0x100 == n / 0x1_0000 * 0x100 + n / 0x100 % 0x100;
    assert n / 0x1_0000 == n / 0x100_0000 * 0x100 + n / 0x1_0000 % 0x100;
  }

  lemma ZeroLength()
    ensures BigEndian(0) == TERMINATOR
  {
  }

  function Least(a: nat, b: nat): nat {
    if a < b then a else b
  }

  /** The writes of the loop from one offset on, and the terminator. */
  function Framed(buffer: Bytes): Bytes
    decreases |buffer|
  {
    if buffer == [] then TERMINATOR
    else
      var n := Least(CHUNK_SIZE, |buffer|);
      BigEndian(n) + buffer[..n] + Framed(buffer[n..])
  }

  method ScanWithClamAv(buffer: Bytes, socket: Socket)
    modifies socket
    ensures socket.sent == old(socket.sent) + COMMAND + Framed(buffer)
    ensures Spells(COMMAND, "zINSTREAM\0")
  {
    hide Framed, BigEndian, Remaining;
    WholeRemains(buffer);
    socket.Write(COMMAND);
    var offset := 0;
    while offset < |buffer|
      invariant 0 <= offset
      invariant old(socket.sent) + COMMAND + Framed(buffer) == socket.sent + Framed(Remaining(buffer, offset))
      decreases |buffer| - offset
    {
      var end := Least(offset + CHUNK_SIZE, |buffer|);
      var chunk := buffer[offset..end];
      RemainingSplits(buffer, offset);
      Reassociate(socket.sent, BigEndian(|chunk|), chunk, Framed(Remaining(buffer, offset + CHUNK_SIZE)));
      socket.Write(BigEndian(|chunk|));
      socket.Write(chunk);
      offset := offset + CHUNK_SIZE;
    }
    NothingRemains(buffer, offset);
    socket.Write(TERMINATOR);
  }

  lemma Reassociate(sent: Bytes, length: Bytes, chunk: Bytes, more: Bytes)
    ensures sent + (length + chunk + more) == sent + length + chunk + more
  {
  }

  lemma NothingRemains(buffer: Bytes, offset: nat)
    requires offset >= |buffer|
    ensures Framed(Remaining(buffer, offset)) == TERMINATOR
  {
  }

  lemma WholeRemains(buffer: Bytes)
    ensures Remaining(buffer, 0) == buffer
  {
  }

  function Remaining(buffer: Bytes, offset: nat): Bytes {
    if offset < |buffer| then buffer[offset..] else []
  }

  lemma RemainingSplits(buffer: Bytes, offset: nat)
    requires offset < |buffer|
    ensures
      var chunk := buffer[offset..Least(offset + CHUNK_SIZE, |buffer|)];
      Framed(Remaining(buffer, offset)) == BigEndian(|chunk|) + chunk + Framed(Remaining(buffer, offset + CHUNK_SIZE))
  {
    var rest := Remaining(buffer, offset);
    var n := Least(CHUNK_SIZE, |rest|);
    assert rest[..n] == buffer[offset..Least(offset + CHUNK_SIZE, |buffer|)];
    assert rest[n..] == Remaining(buffer, offset + CHUNK_SIZE);
  }

  // ---------- The reader ----------

  datatype Stream = Stream(chunks: seq<Bytes>, rest: Bytes)

  /** Length-prefixed chunks up to a zero length; `None` when the bytes run out. */
  function ReadStream(bytes: Bytes): Option<Stream>
    decreases |bytes|
  {
    if |bytes| < 4 then None
    else
      var n := FromBigEndian(bytes[..4]);
      if n == 0 then Some(Stream([], bytes[4..]))
      else if |bytes| < 4 + n then None
      else
        var more :- ReadStream(bytes[4 + n..]);
        Some(Stream([bytes[4..4 + n]] + more.chunks, more.rest))
  }

  function Joined(chunks: seq<Bytes>): Bytes {
    if chunks == [] then [] else chunks[0] + Joined(chunks[1..])
  }

  /** All chunks are full but the last, and none is empty. */
  predicate ProperChunks(chunks: seq<Bytes>) {
    forall i | 0 <= i < |chunks| :: 1 <= |chunks[i]| <= 64 * 1024 && (i < |chunks| - 1 ==> |chunks[i]| == 64 * 1024)
  }

  /**
   Whatever follows it, a framed buffer is read back exactly: chunks of 1 to 65536 bytes that join to the buffer, and
   nothing read beyond the terminator.
   */
  lemma {:induction false} FramingRoundTrip(buffer: Bytes, rest: Bytes)
    ensures
      var stream := ReadStream(Framed(buffer) + rest);
      stream.Some? && Joined(stream.value.chunks) == buffer && stream.value.rest == rest &&
        ProperChunks(stream.value.chunks) &&
      |stream.value.chunks| == (|buffer| + CHUNK_SIZE - 1) / CHUNK_SIZE
    decreases |buffer|
  {
    hide FromBigEndian, BigEndian;
    var bytes := Framed(buffer) + rest;
    if buffer == [] {
      assert FromBigEndian(TERMINATOR) == 0 by {
        BigEndianRoundTrip(0);
        ZeroLength();
      }
      assert bytes[..4] == TERMINATOR && bytes[4..] == rest;
    } else {
      var n := Least(CHUNK_SIZE, |buffer|);
      FramingRoundTrip(buffer[n..], rest);
      BigEndianRoundTrip(n);
      FrameSplits(BigEndian(n), buffer[..n], Framed(buffer[n..]), rest);
      ChunkJoins(buffer[..n], ReadStream(Framed(buffer[n..]) + rest).value.chunks);
      assert buffer[..n] + buffer[n..] == buffer;
    }
  }

  lemma FrameSplits(length: Bytes, chunk: Bytes, more: Bytes, rest: Bytes)
    requires |length| == 4
    ensures
      var bytes := length + chunk + more + rest;
      bytes[..4] == length && bytes[4..4 + |chunk|] == chunk && bytes[4 + |chunk|..] == more + rest
  {
  }

  lemma ChunkJoins(chunk: Bytes, chunks: seq<Bytes>)
    ensures Joined([chunk] + chunks) == chunk + Joined(chunks)
  {
    assert ([chunk] + chunks)[1..] == chunks;
  }

  /** Two buffers framed alike are the same buffer. */
  lemma FramingIsInjective(a: Bytes, b: Bytes)
    requires Framed(a) == Framed(b)
    ensures a == b
  {
    FramingRoundTrip(a, []);
    FramingRoundTrip(b, []);
  }
}
