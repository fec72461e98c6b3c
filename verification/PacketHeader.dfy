/** The 32-bit reliability header: packet number in the upper half, acknowledgement
    tag in the lower half, both read back as signed 16-bit values. */
module PacketHeaders {

  const DATA_TAG: bv16 := 0
  const UNRELIABLE_TAG: bv16 := 1
  const ACK_TAG: bv16 := 9999

  /** A 16-bit pattern read as int16_t. */
  function Signed(x: bv16): (n: int)
    ensures -0x8000 <= n < 0x8000
  {
    if x < 0x8000 then x as int else x as int - 0x1_0000
  }

  /** The number that the pattern stands for in two's complement. */
  lemma SignedMeans(x: bv16)
    ensures Signed(x) == x as int || Signed(x) == x as int - 0x1_0000
  {
  }

  /** An int16_t promoted to 32 bits: the sign bit fills the upper half. */
  function Promoted(tag: bv16): bv32 {
    if tag < 0x8000 then tag as bv32 else (tag as bv32) | 0xFFFF_0000
  }

  /** `(number << 16) | tag`, as a 32-bit pattern; the tag is signed. */
  function Pack(number: bv16, tag: bv16): bv32 {
    ((number as bv32) << 16) | Promoted(tag)
  }

  /** The low half, as the cast to int16_t keeps it. */
  function Tag(header: bv32): bv16 {
    (header & 0xFFFF) as bv16
  }

  /** The high half: the shift is arithmetic in the source, but the cast to 16 bits
      drops the copies of the sign. */
  function Number(header: bv32): bv16 {
    ((header >> 16) & 0xFFFF) as bv16
  }

  /** The header that a receiver answers to a data header. */
  function AckFor(header: bv32): bv32 {
    Pack(Number(header) + 1, ACK_TAG)
  }

  /** What the sender stores as completed when an acknowledgement arrives. */
  function CompletedBy(ack: bv32): bv16 {
    Number(ack) - 1
  }

  /** The tag always comes back. The number does exactly when the tag is not negative,
      or all its bits are set anyway: a negative tag overwrites the number. The tags in
      use, 0, 1 and 9999, are not negative. */
  lemma UnpackPack(number: bv16, tag: bv16)
    ensures Number(Pack(number, tag)) == number <==> tag < 0x8000 || number == 0xFFFF
    ensures Tag(Pack(number, tag)) == tag
  {
    if tag < 0x8000 {
      SmallTagUnpacks(number, tag);
    } else {
      NegativeTagOverwrites(number, tag);
    }
  }

  lemma SmallTagUnpacks(number: bv16, tag: bv16)
    requires tag < 0x8000
    ensures Number(Pack(number, tag)) == number && Tag(Pack(number, tag)) == tag
  {
  }

  lemma NegativeTagOverwrites(number: bv16, tag: bv16)
    requires tag >= 0x8000
    ensures Number(Pack(number, tag)) == 0xFFFF && Tag(Pack(number, tag)) == tag
  {
  }

  /** Pack, receive, acknowledge with number + 1, unpack, subtract one: every packet
      number comes back, through every wrap-around. */
  lemma AckReturnsNumber(number: bv16)
    ensures Tag(AckFor(Pack(number, DATA_TAG))) == ACK_TAG
    ensures CompletedBy(AckFor(Pack(number, DATA_TAG))) == number
  {
  }

  /** The sender's test of the uint16_t packet number against the int16_t store, on
      bit patterns; the next lemma gives its reading on numbers. */
  predicate SenderAccepts(number: bv16, completed: bv16) {
    number == completed && number < 0x8000
  }

  lemma SignBit(x: bv16)
    ensures x < 0x8000 <==> (x as int) < 0x8000
  {
  }

  /** Both operands are promoted to int, one unsigned and one signed, and then
      compared for equality. */
  lemma AcceptsIsPromotedEquality(number: bv16, completed: bv16)
    ensures SenderAccepts(number, completed) <==> number as int == Signed(completed)
  {
    SignBit(completed);
    SignBit(number);
    if number as int == completed as int {
      assert (number as int) as bv16 == number;
      assert (completed as int) as bv16 == completed;
    }
  }

  /** So a sender accepts the acknowledgement of its own packet exactly when the
      number is below 32768; above that the two readings differ by 65536. */
  lemma OwnAckAcceptedIff(number: bv16)
    ensures SenderAccepts(number, CompletedBy(AckFor(Pack(number, DATA_TAG)))) <==> (number as int) < 0x8000
  {
    AckReturnsNumber(number);
    SignBit(number);
  }
}
