/** The bytes of a reliable datagram: a four-byte header, the five packed bytes of
    the packet information, then the payload; and the receiving side's in-place
    removal of the header. */
module Datagrams {
  import opened PacketHeaders
  import opened Buffers

  const HEADER_BYTES: nat := 4
  const INFORMATION_BYTES: nat := 5
  const MAX_BUFFER_SIZE: nat := 2048

  /** A PACKET_STRUCT whose payload is as long as its size field says. */
  datatype Packet = Packet(kind: Byte, number: bv16, payload: seq<Byte>)

  ghost predicate Fits(p: Packet) {
    HEADER_BYTES + INFORMATION_BYTES + |p.payload| <= MAX_BUFFER_SIZE
  }

  // ---------------------------------------------------------------- little-endian integers

  function Bytes16(x: bv16): seq<Byte> {
    [(x & 0xFF) as bv8, ((x >> 8) & 0xFF) as bv8]
  }

  function Word16(low: Byte, high: Byte): bv16 {
    ((high as bv16) << 8) | (low as bv16)
  }

  function Bytes32(x: bv32): seq<Byte> {
    [(x & 0xFF) as bv8, ((x >> 8) & 0xFF) as bv8, ((x >> 16) & 0xFF) as bv8, ((x >> 24) & 0xFF) as bv8]
  }

  function Word32(b0: Byte, b1: Byte, b2: Byte, b3: Byte): bv32 {
    ((b3 as bv32) << 24) | ((b2 as bv32) << 16) | ((b1 as bv32) << 8) | (b0 as bv32)
  }

  lemma Word16Bytes16(x: bv16)
    ensures Word16(Bytes16(x)[0], Bytes16(x)[1]) == x
  {
  }

  lemma Word32Bytes32(x: bv32)
    ensures Word32(Bytes32(x)[0], Bytes32(x)[1], Bytes32(x)[2], Bytes32(x)[3]) == x
  {
  }

  // ---------------------------------------------------------------- the datagram

  function InformationBytes(p: Packet): (s: seq<Byte>)
    requires |p.payload| < 0x1_0000
    ensures |s| == INFORMATION_BYTES
  {
    [p.kind] + Bytes16(|p.payload| as bv16) + Bytes16(p.number)
  }

  function DatagramBytes(p: Packet, tag: bv16): seq<Byte>
    requires |p.payload| < 0x1_0000
  {
    Bytes32(Pack(p.number, tag)) + InformationBytes(p) + p.payload
  }

  function HeaderOf(s: seq<Byte>): bv32
    requires |s| >= HEADER_BYTES
  {
    Word32(s[0], s[1], s[2], s[3])
  }

  /** The packet that information bytes and payload spell, if their size field
      matches. */
  ghost predicate Spells(s: seq<Byte>, p: Packet) {
    && |s| == INFORMATION_BYTES + |p.payload|
    && |p.payload| < 0x1_0000
    && s[0] == p.kind
    && Word16(s[1], s[2]) == |p.payload| as bv16
    && Word16(s[3], s[4]) == p.number
    && s[INFORMATION_BYTES..] == p.payload
  }

  /** The header of a datagram names packet and tag, and behind it the packet is
      spelled out in full. */
  lemma DatagramMeans(p: Packet, tag: bv16)
    requires |p.payload| < 0x1_0000
    ensures var s := DatagramBytes(p, tag);
            && |s| == HEADER_BYTES + INFORMATION_BYTES + |p.payload|
            && HeaderOf(s) == Pack(p.number, tag)
            && Spells(s[HEADER_BYTES..], p)
  {
    var s := DatagramBytes(p, tag);
    Word32Bytes32(Pack(p.number, tag));
    Word16Bytes16(|p.payload| as bv16);
    Word16Bytes16(p.number);
    var tail := s[HEADER_BYTES..];
    assert tail == InformationBytes(p) + p.payload;
    assert tail[INFORMATION_BYTES..] == p.payload;
  }

  /** Byte by byte, low bytes first: the tag, the number, the kind, the payload size and
      the number again. */
  lemma BytesStand(p: Packet, tag: bv16)
    requires |p.payload| < 0x1_0000 && tag < 0x8000
    ensures var s := DatagramBytes(p, tag);
            && |s| == 9 + |p.payload|
            && s[0] == (tag & 0xFF) as bv8 && s[1] == (tag >> 8) as bv8
            && s[2] == (p.number & 0xFF) as bv8 && s[3] == (p.number >> 8) as bv8
            && s[4] == p.kind
            && s[5] == (|p.payload| as bv16 & 0xFF) as bv8 && s[6] == (|p.payload| as bv16 >> 8) as bv8
            && s[7] == (p.number & 0xFF) as bv8 && s[8] == (p.number >> 8) as bv8
            && s[9..] == p.payload
  {
    HeaderBytesStand(p.number, tag);
    ShiftedFits(p.number);
    ShiftedFits(|p.payload| as bv16);
  }

  lemma ShiftedFits(x: bv16)
    ensures x >> 8 < 0x100 && x & 0xFF < 0x100 && (x >> 8) & 0xFF == x >> 8
  {
  }

  lemma HeaderBytesStand(number: bv16, tag: bv16)
    requires tag < 0x8000
    ensures tag >> 8 < 0x100 && number >> 8 < 0x100
    ensures var s := Bytes32(Pack(number, tag));
            && s[0] == (tag & 0xFF) as bv8 && s[1] == (tag >> 8) as bv8
            && s[2] == (number & 0xFF) as bv8 && s[3] == (number >> 8) as bv8
  {
  }

  /** Different packets never have the same bytes. */
  lemma SpellingIsUnique(s: seq<Byte>, p: Packet, q: Packet)
    requires Spells(s, p) && Spells(s, q)
    ensures p == q
  {
  }

  // ---------------------------------------------------------------- sending

  /** Fills the send buffer; the datagram is its first `length` bytes. */
  method SetAckNumberToBuffer(buffer: array<Byte>, p: Packet, tag: bv16) returns (length: nat)
    requires buffer.Length == MAX_BUFFER_SIZE && Fits(p)
    modifies buffer
    ensures length == HEADER_BYTES + INFORMATION_BYTES + |p.payload|
    ensures buffer[..length] == DatagramBytes(p, tag)
    ensures forall i :: length <= i < buffer.Length ==> buffer[i] == 0
  {
    length := HEADER_BYTES + INFORMATION_BYTES + |p.payload|;
    FillInTurn(buffer, Bytes32(Pack(p.number, tag)), InformationBytes(p), p.payload);
  }

  /** The bytes start with `done`, and only zeros follow. */
  ghost predicate FilledWith(s: seq<Byte>, done: seq<Byte>) {
    done <= s && forall i :: |done| <= i < |s| ==> s[i] == 0
  }

  /** Zeros everywhere, then three copies, each behind the one before. */
  method FillInTurn(buffer: array<Byte>, header: seq<Byte>, information: seq<Byte>, payload: seq<Byte>)
    requires |header| + |information| + |payload| <= buffer.Length
    modifies buffer
    ensures FilledWith(buffer[..], header + information + payload)
  {
    ZeroMemory(buffer);
    CopyBehind(buffer, 0, header, []);
    assert [] + header == header;
    CopyBehind(buffer, |header|, information, header);
    CopyBehind(buffer, |header| + |information|, payload, header + information);
  }

  method CopyBehind(buffer: array<Byte>, at: nat, source: seq<Byte>, ghost done: seq<Byte>)
    requires FilledWith(buffer[..], done) && |done| == at && at + |source| <= buffer.Length
    modifies buffer
    ensures FilledWith(buffer[..], done + source)
  {
    ghost var was := buffer[..];
    CopyMemory(buffer, at, source);
    assert buffer[..] == was[..at] + source + was[at + |source|..];
  }

  // ---------------------------------------------------------------- receiving

  /** What a received datagram makes the socket do besides editing the buffer. */
  datatype Action =
    | Nothing
    | Complete(number: bv16)  // SendCompletion with this number
    | Reply(header: bv32)     // WriteTo with these four bytes

  /** What a header asks for. */
  function ActionFor(header: bv32): Action {
    if Tag(header) == ACK_TAG then Complete(Number(header) - 1)
    else if Tag(header) == DATA_TAG then Reply(AckFor(header))
    else Nothing
  }

  /** What the three tags ask for: 9999 completes the number before the header's, 0 is
      answered with tag 9999 and the number after it, and nothing else has an effect. */
  lemma TagsDecide(header: bv32)
    ensures Tag(header) == 9999 ==> ActionFor(header) == Complete(Number(header) - 1)
    ensures Tag(header) == 0 ==>
              && ActionFor(header).Reply?
              && Tag(ActionFor(header).header) == 9999 && Number(ActionFor(header).header) == Number(header) + 1
    ensures Tag(header) != 9999 && Tag(header) != 0 ==> ActionFor(header) == Nothing
    ensures IsData(header) <==> Tag(header) == 0 || Tag(header) == 1
  {
    UnpackPack(Number(header) + 1, ACK_TAG);
  }

  /** The caller's packet number after a header: an acknowledgement raises it. */
  function Newest(updated: bv16, header: bv32): bv16 {
    if Tag(header) == ACK_TAG && Signed(updated) <= Signed(Number(header)) - 1 then Number(header) else updated
  }

  /** The packet number after a sequence of headers. */
  ghost function NewestOf(updated: bv16, headers: seq<bv32>): bv16 {
    if headers == [] then updated
    else Newest(NewestOf(updated, headers[..|headers| - 1]), headers[|headers| - 1])
  }

  ghost predicate IsAck(header: bv32, number: bv16) {
    Tag(header) == ACK_TAG && Number(header) == number
  }

  /** Over any messages the caller's packet number is the greatest, as a signed number,
      of its first value and the acknowledged ones, so it never goes back. */
  lemma {:induction false} NewestIsGreatest(updated: bv16, headers: seq<bv32>)
    ensures var newest := NewestOf(updated, headers);
            && Signed(updated) <= Signed(newest)
            && (forall i :: 0 <= i < |headers| && Tag(headers[i]) == ACK_TAG ==> Signed(Number(headers[i])) <= Signed(newest))
            && (newest == updated || exists i :: 0 <= i < |headers| && IsAck(headers[i], newest))
  {
    if headers != [] {
      var init := headers[..|headers| - 1];
      NewestIsGreatest(updated, init);
      assert forall i :: 0 <= i < |init| ==> init[i] == headers[i];
    }
  }

  /** Data messages lose their header in place; of an acknowledgement only the count
      changes; anything else is left alone. */
  predicate IsData(header: bv32) {
    Tag(header) == DATA_TAG || Tag(header) == UNRELIABLE_TAG
  }

  /** What the receiver owes for a message with this header: the action, the new
      length, and the buffer with or without the header. */
  ghost predicate Handled(header: bv32, was: seq<Byte>, received: nat, now: seq<Byte>, left: nat, action: Action)
    requires HEADER_BYTES <= received <= |was|
  {
    && action == ActionFor(header)
    && left == (if IsData(header) || Tag(header) == ACK_TAG then received - HEADER_BYTES else received)
    && |now| == |was|
    && if IsData(header) then now[..left] == was[HEADER_BYTES..received] && now[left..] == was[left..]
       else now == was
  }

  /** The branches of CheckAck, on the header already read. */
  method Handle(buffer: array<Byte>, received: nat, header: bv32, updated: bv16)
    returns (left: nat, action: Action, newest: bv16)
    requires HEADER_BYTES <= received <= buffer.Length
    modifies buffer
    ensures Handled(header, old(buffer[..]), received, buffer[..], left, action)
    ensures newest == Newest(updated, header)
  {
    var ackNumber, packetNumber := Tag(header), Number(header);
    newest := updated;
    if ackNumber == ACK_TAG {
      if Signed(newest) <= Signed(packetNumber) - 1 {
        newest := packetNumber;
      }
      return received - HEADER_BYTES, Complete(packetNumber - 1), newest;
    } else if ackNumber == DATA_TAG {
      var sendPacketNumber := packetNumber + 1;
      left := received - HEADER_BYTES;
      MoveMemory(buffer, HEADER_BYTES, left);
      return left, Reply(Pack(sendPacketNumber, ACK_TAG)), newest;
    } else if ackNumber == UNRELIABLE_TAG {
      left := received - HEADER_BYTES;
      MoveMemory(buffer, HEADER_BYTES, left);
      return left, Nothing, newest;
    }
    return received, Nothing, newest;
  }

  /** The event-select overload of CheckAck on a message of `received` bytes; the
      length of the shortened message comes back as `left`, the caller's packet number
      as `newest`. */
  method CheckAck(buffer: array<Byte>, received: nat, updated: bv16)
    returns (left: nat, action: Action, newest: bv16)
    requires HEADER_BYTES <= received <= buffer.Length
    modifies buffer
    ensures Handled(HeaderOf(old(buffer[..])), old(buffer[..]), received, buffer[..], left, action)
    ensures newest == Newest(updated, HeaderOf(old(buffer[..])))
    ensures var tag := Tag(HeaderOf(old(buffer[..])));
            && (tag == 0 || tag == 1 ==> left == received - 4 && buffer[..left] == old(buffer[4..received]))
            && (tag == 9999 ==> left == received - 4 && buffer[..] == old(buffer[..]))
            && (tag != 0 && tag != 1 && tag != 9999 ==> left == received && buffer[..] == old(buffer[..]))
  {
    left, action, newest := Handle(buffer, received, Word32(buffer[0], buffer[1], buffer[2], buffer[3]), updated);
  }

  // ---------------------------------------------------------------- round trip

  lemma HeaderOfPrefix(s: seq<Byte>, prefix: seq<Byte>)
    requires HEADER_BYTES <= |prefix| <= |s| && s[..|prefix|] == prefix
    ensures HeaderOf(s) == HeaderOf(prefix)
  {
  }

  /** A packet sent with tag 0 or 1 arrives, whatever the receive buffer held before,
      as exactly its information bytes and payload, four bytes shorter. */
  method Transfer(p: Packet, tag: bv16, sendBuffer: array<Byte>, receiveBuffer: array<Byte>)
    returns (left: nat, action: Action)
    requires sendBuffer != receiveBuffer && Fits(p)
    requires sendBuffer.Length == receiveBuffer.Length == MAX_BUFFER_SIZE
    requires tag == DATA_TAG || tag == UNRELIABLE_TAG
    modifies sendBuffer, receiveBuffer
    ensures left == INFORMATION_BYTES + |p.payload| <= receiveBuffer.Length
    ensures Spells(receiveBuffer[..left], p)
    ensures action == ActionFor(Pack(p.number, tag))
  {
    UnpackPack(p.number, tag);
    var length := SetAckNumberToBuffer(sendBuffer, p, tag);
    CopyMemory(receiveBuffer, 0, sendBuffer[..length]);
    ghost var message := DatagramBytes(p, tag);
    DatagramMeans(p, tag);
    assert receiveBuffer[..length] == message;
    HeaderOfPrefix(receiveBuffer[..], message);
    assert receiveBuffer[HEADER_BYTES..length] == message[HEADER_BYTES..];
    var newest;
    left, action, newest := CheckAck(receiveBuffer, length, 0);
  }

  /** A four-byte answer is acted on as its header says. */
  method Return(header: bv32, buffer: array<Byte>) returns (action: Action)
    requires buffer.Length == MAX_BUFFER_SIZE
    modifies buffer
    ensures action == ActionFor(header)
  {
    var reply := Bytes32(header);
    Word32Bytes32(header);
    CopyMemory(buffer, 0, reply);
    assert buffer[..HEADER_BYTES] == reply;
    HeaderOfPrefix(buffer[..], reply);
    var left, newest;
    left, action, newest := CheckAck(buffer, HEADER_BYTES, 0);
  }

  /** The reply to a reliable packet, received in turn, completes the packet's own
      number; an unreliable packet gets no reply. */
  lemma ReplyCompletes(number: bv16)
    ensures ActionFor(Pack(number, DATA_TAG)) == Reply(AckFor(Pack(number, DATA_TAG)))
    ensures ActionFor(AckFor(Pack(number, DATA_TAG))) == Complete(number)
    ensures ActionFor(Pack(number, UNRELIABLE_TAG)) == Nothing
  {
  }
}
