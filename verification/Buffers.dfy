/** The memory routines that the socket and dump code call on byte buffers. */
module Buffers {

  type Byte = bv8

  function Zeros(n: nat): (s: seq<Byte>)
    ensures |s| == n && forall i :: 0 <= i < n ==> s[i] == 0
  {
    seq(n, _ => 0)
  }

  method ZeroMemory(buffer: array<Byte>)
    modifies buffer
    ensures buffer[..] == Zeros(buffer.Length)
  {
    for i := 0 to buffer.Length
      invariant forall k :: 0 <= k < i ==> buffer[k] == 0
    {
      buffer[i] := 0;
    }
  }

  method CopyMemory(buffer: array<Byte>, at: nat, source: seq<Byte>)
    requires at + |source| <= buffer.Length
    modifies buffer
    ensures buffer[..] == old(buffer[..at]) + source + old(buffer[at + |source|..])
  {
    for i := 0 to |source|
      invariant buffer[..at] == old(buffer[..at])
      invariant buffer[at..at + i] == source[..i]
      invariant buffer[at + i..] == old(buffer[at + i..])
    {
      buffer[at + i] := source[i];
      assert buffer[at..at + i + 1] == source[..i] + [source[i]];
      assert buffer[at + i + 1..] == old(buffer[at + i..])[1..];
    }
    assert buffer[..] == buffer[..at] + buffer[at..at + |source|] + buffer[at + |source|..];
  }

  /** Moves `count` bytes from `offset` to the front of the same buffer. Source
      and target overlap, so the copy runs from low to high addresses. */
  method MoveMemory(buffer: array<Byte>, offset: nat, count: nat)
    requires offset + count <= buffer.Length
    modifies buffer
    ensures buffer[..count] == old(buffer[offset..offset + count])
    ensures buffer[count..] == old(buffer[count..])
  {
    for i := 0 to count
      invariant forall k :: 0 <= k < i ==> buffer[k] == old(buffer[offset + k])
      invariant forall k :: i <= k < buffer.Length ==> buffer[k] == old(buffer[k])
    {
      buffer[i] := buffer[offset + i];
    }
  }
}
