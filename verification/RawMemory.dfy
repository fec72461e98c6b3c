/** Byte-addressed memory with pointers stored little-endian in `width` bytes: four
    in a 32-bit build, eight in a 64-bit build. */
module RawMemory {

  const NULL: nat := 0

  type Byte = b: int | 0 <= b < 256

  /** The bytes of the allocated addresses. */
  type Memory = map<int, Byte>

  ghost predicate Allocated(m: Memory, at: int, size: nat) {
    forall a :: at <= a < at + size ==> a in m
  }

  function Power256(k: nat): (p: nat)
    ensures p >= 1
  {
    if k == 0 then 1 else 256 * Power256(k - 1)
  }

  /** Byte number i of p, the lowest first. */
  function Digit(p: nat, i: nat): Byte
    decreases i
  {
    if i == 0 then p % 256 else Digit(p / 256, i - 1)
  }

  /** The k low-order bytes of p, lowest first. */
  function Encode(p: nat, k: nat): (s: seq<Byte>)
    ensures |s| == k
  {
    seq(k, i requires 0 <= i < k => Digit(p, i))
  }

  function Decode(s: seq<Byte>): nat {
    if s == [] then 0 else s[0] + 256 * Decode(s[1..])
  }

  /** The lowest byte comes first: byte i is what is left of p above its i low bytes,
      modulo 256. */
  lemma {:induction false} EncodeIsLittleEndian(p: nat, k: nat, i: nat)
    requires i < k
    ensures Encode(p, k)[i] == (p / Power256(i)) % 256
    decreases i
  {
    if i == 0 {
      assert Power256(0) == 1;
    } else {
      EncodeIsLittleEndian(p / 256, k, i - 1);
      DivideInTwo(p, Power256(i - 1));
    }
  }

  lemma DivideInTwo(p: nat, d: nat)
    requires d >= 1
    ensures p / (256 * d) == (p / 256) / d
  {
    var (q, r) := ((p / 256) / d, (p / 256) % d);
    assert p == 256 * (q * d + r) + p % 256;
    assert 256 * r + p % 256 < 256 * d;
    assert p == q * (256 * d) + (256 * r + p % 256) by {
      assert 256 * (q * d) == q * (256 * d);
    }
    QuotientIs(q, 256 * r + p % 256, 256 * d);
  }

  lemma MultipleIsFar(k: int, y: nat)
    ensures k >= 1 ==> k * y >= y
    ensures k <= -1 ==> k * y + y <= 0
  {
  }

  lemma QuotientIs(q: nat, r: nat, y: nat)
    requires y >= 1 && r < y
    ensures (q * y + r) / y == q
  {
    var x := q * y + r;
    assert (x / y - q) * y == r - x % y;
    MultipleIsFar(x / y - q, y);
  }

  lemma {:induction false} DecodeEncode(p: nat, k: nat)
    requires p < Power256(k)
    ensures Decode(Encode(p, k)) == p
    decreases k
  {
    if k > 0 {
      assert p / 256 < Power256(k - 1);
      DecodeEncode(p / 256, k - 1);
      assert Encode(p, k)[1..] == Encode(p / 256, k - 1);
    }
  }

  lemma {:induction false} DecodeIsBounded(s: seq<Byte>)
    ensures Decode(s) < Power256(|s|)
  {
    if s != [] {
      DecodeIsBounded(s[1..]);
    }
  }

  function Bytes(m: Memory, at: int, size: nat): (s: seq<Byte>)
    requires Allocated(m, at, size)
    ensures |s| == size
  {
    seq(size, i requires 0 <= i < size => m[at + i])
  }

  function WriteBytes(m: Memory, at: int, s: seq<Byte>): (m': Memory)
    ensures forall a {:trigger a in m'} :: a in m' <==> a in m || at <= a < at + |s|
    ensures forall a {:trigger m'[a]} :: a in m && !(at <= a < at + |s|) ==> m'[a] == m[a]
    decreases |s|
  {
    if s == [] then m
    else
      var last := |s| - 1;
      WriteBytes(m, at, s[..last])[at + last := s[last]]
  }

  lemma {:induction false} WrittenAt(m: Memory, at: int, s: seq<Byte>)
    ensures forall i :: 0 <= i < |s| ==> WriteBytes(m, at, s)[at + i] == s[i]
    decreases |s|
  {
    if s != [] {
      WrittenAt(m, at, s[..|s| - 1]);
    }
  }

  function ReadPointer(m: Memory, at: int, width: nat): (p: nat)
    requires Allocated(m, at, width)
    ensures p < Power256(width)
  {
    DecodeIsBounded(Bytes(m, at, width));
    Decode(Bytes(m, at, width))
  }

  function WritePointer(m: Memory, at: int, p: nat, width: nat): (m': Memory)
    ensures forall a {:trigger a in m'} :: a in m' <==> a in m || at <= a < at + width
    ensures forall a {:trigger m'[a]} :: a in m && !(at <= a < at + width) ==> m'[a] == m[a]
  {
    WriteBytes(m, at, Encode(p, width))
  }

  /** A pointer reads back as written. */
  lemma ReadOwnWrite(m: Memory, at: int, p: nat, width: nat)
    requires p < Power256(width)
    ensures Allocated(WritePointer(m, at, p, width), at, width)
    ensures ReadPointer(WritePointer(m, at, p, width), at, width) == p
  {
    var m' := WritePointer(m, at, p, width);
    DecodeEncode(p, width);
    WrittenAt(m, at, Encode(p, width));
    assert Bytes(m', at, width) == Encode(p, width);
  }

  /** All that was allocated still is, with the same bytes. */
  ghost predicate Extends(m: Memory, m': Memory) {
    && (forall a {:trigger a in m'} {:trigger a in m} :: a in m ==> a in m')
    && forall a {:trigger m'[a]} {:trigger m[a]} :: a in m && a in m' ==> m'[a] == m[a]
  }

  ghost predicate SameBytes(m: Memory, m': Memory, at: int, size: nat) {
    forall a :: at <= a < at + size ==> a in m && a in m' && m[a] == m'[a]
  }

  /** A pointer whose bytes are unchanged reads the same. */
  lemma ReadUnchanged(m: Memory, m': Memory, at: int, width: nat)
    requires SameBytes(m, m', at, width)
    ensures Allocated(m, at, width) && Allocated(m', at, width)
    ensures ReadPointer(m', at, width) == ReadPointer(m, at, width)
  {
    assert Bytes(m, at, width) == Bytes(m', at, width);
  }
}
