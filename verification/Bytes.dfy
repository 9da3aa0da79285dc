/** Bytes, the machine integers of the relay, and their big-endian encoding. */
module Bytes {
  type byte = x: int | 0 <= x < 0x100
  type u16 = x: int | 0 <= x < 0x1_0000
  type u32 = x: int | 0 <= x < TWO_32

  const TWO_32: int := 0x1_0000_0000

  /** Largest IPv4 packet the relay reserves room for. */
  const MAX_PACKET_LENGTH: nat := 0x1_0000

  datatype Option<+T> = None | Some(value: T)

  function Min(a: int, b: int): int { if a <= b then a else b }

  /** Wrapping 32-bit conversion of an exact integer. */
  function Wrap32(x: int): u32 { x % TWO_32 }

  lemma WrapAdd(x: int, n: int)
    ensures Wrap32(Wrap32(x) + n) == Wrap32(x + n)
  {}

  function Be16(s: seq<byte>, at: nat): u16
    requires at + 2 <= |s|
  {
    var high: int := s[at];
    0x100 * high + s[at + 1]
  }

  function Be32(s: seq<byte>, at: nat): u32
    requires at + 4 <= |s|
  {
    var high: int := Be16(s, at);
    0x1_0000 * high + Be16(s, at + 2)
  }

  function Encode16(x: u16): (s: seq<byte>)
    ensures |s| == 2 && Be16(s, 0) == x
  {
    [x / 0x100, x % 0x100]
  }

  function Encode32(x: u32): (s: seq<byte>)
    ensures |s| == 4 && Be32(s, 0) == x
  {
    [x / 0x100_0000, x / 0x1_0000 % 0x100, x / 0x100 % 0x100, x % 0x100]
  }

  function Flatten<T>(ss: seq<seq<T>>): seq<T> {
    if ss == [] then [] else ss[0] + Flatten(ss[1..])
  }

  lemma {:induction false} FlattenAppend<T>(a: seq<seq<T>>, b: seq<seq<T>>)
    ensures Flatten(a + b) == Flatten(a) + Flatten(b)
  {
    if a == [] {
      assert a + b == b;
    } else {
      assert (a + b)[1..] == a[1..] + b;
      FlattenAppend(a[1..], b);
    }
  }

  lemma FlattenSnoc<T>(a: seq<seq<T>>, x: seq<T>)
    ensures Flatten(a + [x]) == Flatten(a) + x
  {
    FlattenAppend(a, [x]);
    assert [x][1..] == [];
  }

  /** `cells` with `source` written from index `at` on. */
  function Patch(cells: seq<byte>, at: nat, source: seq<byte>): (r: seq<byte>)
    requires at + |source| <= |cells|
    ensures |r| == |cells|
  {
    cells[..at] + source + cells[at + |source|..]
  }

  /** The slice copy of the source's language. */
  method CopyFromSlice(target: array<byte>, at: nat, source: seq<byte>)
    requires at + |source| <= target.Length
    modifies target
    ensures target[..] == Patch(old(target[..]), at, source)
  {
    forall i | 0 <= i < |source| {
      target[at + i] := source[i];
    }
  }
}
