/** The one's complement checksum of section 3.1 of RFC 791 and of RFC 793. */
module Checksum {
  import opened Bytes

  /** Sum of the 16-bit words of `s`; a last odd byte is the high half of a word. */
  function WordSum(s: seq<byte>): nat {
    if |s| == 0 then 0
    else if |s| == 1 then 0x100 * s[0]
    else Be16(s, 0) + WordSum(s[2..])
  }

  /** End-around carry, until the sum fits 16 bits. */
  function Fold(n: nat): (f: nat)
    ensures f < 0x1_0000
  {
    if n < 0x1_0000 then n else Fold(n % 0x1_0000 + n / 0x1_0000)
  }

  /** The checksum that completes a sum taken with a zero checksum field. */
  function Complement(sum: nat): u16 { 0xFFFF - Fold(sum) }

  lemma {:induction false} FoldIsCongruent(n: nat)
    ensures exists k: nat :: n == Fold(n) + 0xFFFF * k
    ensures Fold(n) == 0 <==> n == 0
  {
    if n < 0x1_0000 {
      assert n == Fold(n) + 0xFFFF * 0;
    } else {
      var m := n % 0x1_0000 + n / 0x1_0000;
      FoldIsCongruent(m);
      var k: nat :| m == Fold(m) + 0xFFFF * k;
      assert n == Fold(n) + 0xFFFF * (k + n / 0x1_0000);
    }
  }

  lemma {:induction false} FoldOfMultiple(k: nat)
    requires k > 0
    ensures Fold(0xFFFF * k) == 0xFFFF
  {
    var n := 0xFFFF * k;
    FoldIsCongruent(n);
    var j: nat :| n == Fold(n) + 0xFFFF * j;
    assert Fold(n) == 0xFFFF * (k - j);
  }

  /** A receiver that sums everything, the checksum included, gets all ones. */
  lemma ComplementVerifies(sum: nat)
    ensures Fold(sum + Complement(sum)) == 0xFFFF
  {
    FoldIsCongruent(sum);
    var k: nat :| sum == Fold(sum) + 0xFFFF * k;
    assert sum + Complement(sum) == 0xFFFF * (k + 1);
    FoldOfMultiple(k + 1);
  }

  lemma {:induction false} WordSumAppend(a: seq<byte>, b: seq<byte>)
    requires |a| % 2 == 0
    ensures WordSum(a + b) == WordSum(a) + WordSum(b)
    decreases |a|
  {
    if a == [] {
      assert a + b == b;
    } else {
      assert (a + b)[2..] == a[2..] + b;
      WordSumAppend(a[2..], b);
    }
  }

  /** A last odd byte counts as if a zero byte followed. */
  lemma {:induction false} WordSumPads(s: seq<byte>)
    requires |s| % 2 == 1
    ensures WordSum(s) == WordSum(s + [0])
    decreases |s|
  {
    if |s| == 1 {
      WordSumOfWord(s + [0]);
    } else {
      assert (s + [0])[2..] == s[2..] + [0];
      WordSumPads(s[2..]);
    }
  }

  lemma WordSumOfWord(w: seq<byte>)
    requires |w| == 2
    ensures WordSum(w) == Be16(w, 0)
  {
    assert w[2..] == [];
  }

  /** One more word. */
  lemma WordSumStep(s: seq<byte>, i: nat)
    requires i % 2 == 0 && i + 2 <= |s|
    ensures WordSum(s[..i + 2]) == WordSum(s[..i]) + Be16(s, i)
  {
    assert s[..i + 2] == s[..i] + s[i..i + 2];
    WordSumAppend(s[..i], s[i..i + 2]);
    WordSumOfWord(s[i..i + 2]);
  }

  /** Filling a field that held zero adds the field to the sum. */
  lemma WordSumField(s: seq<byte>, at: nat, x: u16)
    requires at % 2 == 0 && at + 2 <= |s|
    ensures WordSum(Patch(s, at, Encode16(x))) == WordSum(Patch(s, at, [0, 0])) + x
  {
    var rest := s[at + 2..];
    WordSumAppend(s[..at], Encode16(x) + rest);
    WordSumAppend(s[..at], [0, 0] + rest);
    WordSumAppend(Encode16(x), rest);
    WordSumAppend([0, 0], rest);
    WordSumOfWord(Encode16(x));
    WordSumOfWord([0, 0]);
    assert s[..at] + Encode16(x) + rest == s[..at] + (Encode16(x) + rest);
    assert s[..at] + [0, 0] + rest == s[..at] + ([0, 0] + rest);
  }

  const TWO_16: int := 0x1_0000

  /** The carry loop on a 32-bit sum. */
  method FoldLoop(start: u32) returns (sum: u16)
    ensures sum == Fold(start)
  {
    var s: u32 := start;
    while s / TWO_16 != 0
      invariant Fold(s) == Fold(start)
      decreases s
    {
      s := s % TWO_16 + s / TWO_16;
    }
    sum := s;
  }

  /**
   The optimised loop: the even bytes and the odd bytes are summed apart, and a last odd byte counts as even.
   No 32-bit sum overflows for any packet.
   */
  method AddBytes(s: seq<byte>, high: u32, low: u32) returns (high': u32, low': u32)
    requires |s| < 0x1_0000 && high <= 0xFF * 0x8000 && low <= 0x10_0000 + 0xFF * 0x8000
    ensures 0x100 * high' + low' == 0x100 * high + low + WordSum(s)
    ensures high' <= high + 0xFF * ((|s| + 1) / 2) && low' <= low + 0xFF * (|s| / 2)
  {
    high', low' := high, low;
    var p := 0;
    var end := |s| - 1;
    while p < end
      invariant 0 <= p <= end + 1 && p % 2 == 0
      invariant 0x100 * high' + low' == 0x100 * high + low + WordSum(s[..p])
      invariant high' <= high + 0xFF * (p / 2) && low' <= low + 0xFF * (p / 2)
    {
      WordSumStep(s, p);
      high' := high' + s[p];
      low' := low' + s[p + 1];
      p := p + 2;
    }
    if |s| % 2 != 0 {
      high' := high' + s[|s| - 1];
      WordSumAppend(s[..p], s[p..]);
      assert s == s[..p] + s[p..] && s[p..] == [s[|s| - 1]];
    } else {
      assert s[..p] == s;
    }
  }
}
