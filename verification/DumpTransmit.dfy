/** Sending a dump file in fixed-size chunks from one reused buffer. */
module DumpTransmits {
  import opened Buffers

  const MESSAGE_LENGTH: nat := 1024

  datatype Status = Start | Loop | End

  datatype Packet = Packet(status: Status, payload: seq<Byte>)

  /** The packets of a file: full chunks marked Loop, then one padded chunk marked
      End, which is all padding when the length is a multiple of the chunk size. */
  ghost function Chunks(file: seq<Byte>): seq<Packet> {
    if |file| < MESSAGE_LENGTH then [Packet(End, file + Zeros(MESSAGE_LENGTH - |file|))]
    else [Packet(Loop, file[..MESSAGE_LENGTH])] + Chunks(file[MESSAGE_LENGTH..])
  }

  /** The file and the zeros that fill up its last chunk. */
  function Padded(file: seq<Byte>): seq<Byte> {
    file + Zeros(MESSAGE_LENGTH - |file| % MESSAGE_LENGTH)
  }

  ghost function Payloads(packets: seq<Packet>): seq<Byte> {
    if packets == [] then [] else packets[0].payload + Payloads(packets[1..])
  }

  lemma {:induction false} ChunkCount(file: seq<Byte>)
    ensures |Chunks(file)| == |file| / MESSAGE_LENGTH + 1
  {
    if |file| >= MESSAGE_LENGTH {
      ChunkCount(file[MESSAGE_LENGTH..]);
    }
  }

  lemma {:induction false} OnlyLastIsEnd(file: seq<Byte>, i: nat)
    requires i < |Chunks(file)|
    ensures Chunks(file)[i].status == if i == |Chunks(file)| - 1 then End else Loop
    ensures |Chunks(file)[i].payload| == MESSAGE_LENGTH
  {
    if |file| >= MESSAGE_LENGTH {
      var rest := file[MESSAGE_LENGTH..];
      ChunkCount(rest);
      if i > 0 {
        OnlyLastIsEnd(rest, i - 1);
      }
    }
  }

  /** The payloads are the file followed by nothing but zeros. */
  lemma {:induction false} PayloadsAreFile(file: seq<Byte>)
    ensures Payloads(Chunks(file)) == Padded(file)
  {
    if |file| < MESSAGE_LENGTH {
      assert Chunks(file)[1..] == [];
    } else {
      var rest := file[MESSAGE_LENGTH..];
      PayloadsAreFile(rest);
      assert |rest| % MESSAGE_LENGTH == |file| % MESSAGE_LENGTH;
      assert Chunks(file)[1..] == Chunks(rest);
      assert file == file[..MESSAGE_LENGTH] + rest;
    }
  }

  /** A transmitted file reads back exactly up to its zero padding: two files give the
      same packets if and only if they fill the same number of chunks and agree
      once both are padded. */
  lemma SamePacketsIff(f: seq<Byte>, g: seq<Byte>)
    ensures Chunks(f) == Chunks(g) <==> Padded(f) == Padded(g)
  {
    PayloadsAreFile(f);
    PayloadsAreFile(g);
    var (x, y) := (Padded(f), Padded(g));
    if x == y {
      assert |x| == MESSAGE_LENGTH * (|f| / MESSAGE_LENGTH + 1);
      assert |y| == MESSAGE_LENGTH * (|g| / MESSAGE_LENGTH + 1);
      PaddedFilesGiveSameChunks(f, g);
    }
  }

  lemma {:induction false} PaddedFilesGiveSameChunks(f: seq<Byte>, g: seq<Byte>)
    requires Padded(f) == Padded(g)
    requires |f| / MESSAGE_LENGTH == |g| / MESSAGE_LENGTH
    ensures Chunks(f) == Chunks(g)
    decreases |f|
  {
    if |f| >= MESSAGE_LENGTH {
      var (x, y) := (Padded(f), Padded(g));
      assert f[..MESSAGE_LENGTH] == x[..MESSAGE_LENGTH] && g[..MESSAGE_LENGTH] == y[..MESSAGE_LENGTH];
      var (f', g') := (f[MESSAGE_LENGTH..], g[MESSAGE_LENGTH..]);
      assert Padded(f') == x[MESSAGE_LENGTH..];
      assert Padded(g') == y[MESSAGE_LENGTH..];
      PaddedFilesGiveSameChunks(f', g');
    }
  }

  /** A binary input stream whose reads fall short only at the end of the file. */
  class InputStream {
    const file: seq<Byte>
    var position: nat
    var eof: bool

    ghost predicate Valid()
      reads this
    {
      position <= |file|
    }

    constructor (file: seq<Byte>)
      ensures Valid() && this.file == file && position == 0 && !eof
    {
      this.file, position, eof := file, 0, false;
    }

    /** Reads up to a bufferful into the front of the buffer; a short read sets the
        end-of-file flag. */
    method Read(buffer: array<Byte>) returns (count: nat)
      requires Valid()
      modifies this, buffer
      ensures Valid()
      ensures count == (if |file| - old(position) < buffer.Length then |file| - old(position) else buffer.Length)
      ensures position == old(position) + count
      ensures eof == (old(eof) || count < buffer.Length)
      ensures buffer[..] == file[old(position)..position] + old(buffer[count..])
    {
      count := if |file| - position < buffer.Length then |file| - position else buffer.Length;
      for i := 0 to count
        invariant position == old(position) && eof == old(eof)
        invariant buffer[..i] == file[position..position + i]
        invariant buffer[i..] == old(buffer[i..])
      {
        buffer[i] := file[position + i];
        assert buffer[..i + 1] == file[position..position + i] + [file[position + i]];
        assert buffer[i + 1..] == old(buffer[i..])[1..];
      }
      assert buffer[..] == buffer[..count] + buffer[count..];
      position := position + count;
      eof := eof || count < buffer.Length;
    }
  }

  /** The chunking loop of the transmission thread. */
  method TransmitFile(file: seq<Byte>) returns (packets: seq<Packet>)
    ensures packets == Chunks(file)
  {
    var messageBuffer := new Byte[MESSAGE_LENGTH](_ => 0);
    var dumpFileStream := new InputStream(file);
    var transmitStatus := Start;
    packets := [];
    assert file[0..] == file;
    while !dumpFileStream.eof
      invariant fresh(dumpFileStream) && fresh(messageBuffer)
      invariant dumpFileStream.Valid() && dumpFileStream.file == file
      invariant messageBuffer.Length == MESSAGE_LENGTH
      invariant dumpFileStream.eof ==> packets == Chunks(file)
      invariant !dumpFileStream.eof ==> packets + Chunks(file[dumpFileStream.position..]) == Chunks(file)
      decreases !dumpFileStream.eof, |file| - dumpFileStream.position
    {
      ghost var left := file[dumpFileStream.position..];
      ZeroMemory(messageBuffer);
      var readBytes := dumpFileStream.Read(messageBuffer);
      if readBytes < MESSAGE_LENGTH {
        transmitStatus := End;
        assert messageBuffer[..] == left + Zeros(MESSAGE_LENGTH - |left|);
      } else {
        transmitStatus := Loop;
        assert messageBuffer[..] == left[..MESSAGE_LENGTH];
        assert left[MESSAGE_LENGTH..] == file[dumpFileStream.position..];
      }
      packets := packets + [Packet(transmitStatus, messageBuffer[..])];
    }
  }
}
