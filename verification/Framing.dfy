/**
 Cutting a byte stream into IPv4 packets, as both ends of the tunnel do it: by the version in the first four bits
 and the total length at offset 2.
 */
module Framing {
  import opened Bytes

  predicate IsVersion4(s: seq<byte>) { s != [] && s[0] / 16 == 4 }

  /** The total length field, once it has arrived. */
  function TotalLength(s: seq<byte>): Option<u16> {
    if |s| < 4 then None else Some(Be16(s, 2))
  }

  /** A whole packet stands at the front. */
  predicate Complete(s: seq<byte>) {
    IsVersion4(s) && TotalLength(s).Some? && 0 < TotalLength(s).value <= |s|
  }

  function FirstLength(s: seq<byte>): (n: nat)
    requires Complete(s)
    ensures 0 < n <= |s|
  {
    Be16(s, 2)
  }

  /** The packets at the front of the stream, and what is left when no whole packet stands there any more. */
  function Packets(s: seq<byte>): seq<seq<byte>>
    decreases |s|
  {
    if Complete(s) then [s[..FirstLength(s)]] + Packets(s[FirstLength(s)..]) else []
  }

  function Rest(s: seq<byte>): (r: seq<byte>)
    ensures !Complete(r) && |r| <= |s|
    decreases |s|
  {
    if Complete(s) then Rest(s[FirstLength(s)..]) else s
  }

  /** A packet that can travel through the tunnel: IPv4, its own length in its header. */
  predicate IsPacket(p: seq<byte>) {
    20 <= |p| < MAX_PACKET_LENGTH && IsVersion4(p) && Be16(p, 2) == |p|
  }

  predicate ArePackets(ps: seq<seq<byte>>) { forall i :: 0 <= i < |ps| ==> IsPacket(ps[i]) }

  /** A packet cut short anywhere. */
  ghost predicate IsCut(r: seq<byte>) {
    r == [] || exists p: seq<byte> :: IsPacket(p) && |r| < |p| && r == p[..|r|]
  }

  lemma PacketsStep(s: seq<byte>)
    ensures if Complete(s) then
              var n := FirstLength(s);
              0 < n <= |s| && Packets(s) == [s[..n]] + Packets(s[n..]) && Rest(s) == Rest(s[n..])
            else Packets(s) == [] && Rest(s) == s
  {}

  lemma {:induction false} SplitLosesNothing(s: seq<byte>)
    ensures Flatten(Packets(s)) + Rest(s) == s
    decreases |s|
  {
    hide Packets, Rest, Complete, FirstLength;
    PacketsStep(s);
    if Complete(s) {
      var first, tail := s[..FirstLength(s)], s[FirstLength(s)..];
      SplitLosesNothing(tail);
      assert Packets(s)[1..] == Packets(tail);
      assert (first + Flatten(Packets(tail))) + Rest(tail) == first + (Flatten(Packets(tail)) + Rest(tail));
    }
  }

  lemma CutIsIncomplete(r: seq<byte>)
    requires IsCut(r)
    ensures !Complete(r) && |r| < MAX_PACKET_LENGTH - 1 && (r != [] ==> IsVersion4(r))
    ensures TotalLength(r) != Some(0)
  {
    if r != [] {
      var p: seq<byte> :| IsPacket(p) && |r| < |p| && r == p[..|r|];
      assert r[0] == p[0];
      if |r| >= 4 {
        assert r[2] == p[2] && r[3] == p[3];
      }
    }
  }

  /** Packets laid end to end, the last one cut anywhere, are cut apart again exactly. */
  lemma {:induction false} SplitOfPackets(ps: seq<seq<byte>>, r: seq<byte>)
    requires ArePackets(ps) && IsCut(r)
    ensures Packets(Flatten(ps) + r) == ps && Rest(Flatten(ps) + r) == r
  {
    if ps == [] {
      assert Flatten(ps) + r == r;
      CutIsIncomplete(r);
    } else {
      var s, p := Flatten(ps) + r, ps[0];
      assert s == p + (Flatten(ps[1..]) + r);
      assert s[0] == p[0] && s[2] == p[2] && s[3] == p[3];
      assert FirstLength(s) == |p| && s[..|p|] == p && s[|p|..] == Flatten(ps[1..]) + r;
      SplitOfPackets(ps[1..], r);
      assert ps == [p] + ps[1..];
    }
  }

  lemma CompleteStays(a: seq<byte>, b: seq<byte>)
    requires Complete(a)
    ensures Complete(a + b) && FirstLength(a + b) == FirstLength(a)
  {
    assert (a + b)[0] == a[0] && (a + b)[2] == a[2] && (a + b)[3] == a[3];
  }

  /** Splitting what is left of one chunk together with the next is splitting both at once. */
  lemma {:induction false} SplitInChunks(a: seq<byte>, b: seq<byte>)
    ensures Packets(a + b) == Packets(a) + Packets(Rest(a) + b)
    ensures Rest(a + b) == Rest(Rest(a) + b)
    decreases |a|
  {
    hide Packets, Rest, Complete, FirstLength;
    PacketsStep(a);
    if Complete(a) {
      var n := FirstLength(a);
      CompleteStays(a, b);
      PacketsStep(a + b);
      assert (a + b)[..n] == a[..n] && (a + b)[n..] == a[n..] + b;
      SplitInChunks(a[n..], b);
    }
  }

  /** The stream so far is a run of packets, the last perhaps cut. */
  ghost predicate IsStream(s: seq<byte>) { ArePackets(Packets(s)) && IsCut(Rest(s)) }

  lemma StreamOfPackets(ps: seq<seq<byte>>, r: seq<byte>)
    requires ArePackets(ps) && IsCut(r)
    ensures IsStream(Flatten(ps) + r)
  {
    SplitOfPackets(ps, r);
  }

  lemma StreamTail(s: seq<byte>)
    requires IsStream(s) && Complete(s)
    ensures IsStream(s[FirstLength(s)..])
  {
    assert Packets(s)[1..] == Packets(s[FirstLength(s)..]);
  }

  /** What is left of one chunk, together with the next, is a stream again. */
  lemma StreamInChunks(a: seq<byte>, b: seq<byte>)
    requires IsStream(a + b)
    ensures IsStream(Rest(a) + b)
  {
    SplitInChunks(a, b);
    var n := |Packets(a)|;
    assert Packets(Rest(a) + b) == Packets(a + b)[n..];
  }

  /** A header that announces a length of zero stands at the front. */
  predicate Stuck(s: seq<byte>) { IsVersion4(s) && TotalLength(s) == Some(0) }

  /** No header at a packet boundary announces a length of zero, which neither reader gets past. */
  predicate Advances(s: seq<byte>)
    decreases |s|
  {
    if Complete(s) then Advances(s[FirstLength(s)..])
    else !Stuck(s)
  }

  lemma {:induction false} StreamAdvances(s: seq<byte>)
    requires IsStream(s)
    ensures Advances(s) && (s != [] ==> IsVersion4(s))
    decreases |s|
  {
    if Complete(s) {
      StreamTail(s);
      StreamAdvances(s[FirstLength(s)..]);
    } else {
      CutIsIncomplete(s);
    }
  }

  /** Exactly the inputs on which cutting never ends: the front runs of packets lead to a zero length. */
  lemma {:induction false} AdvancesIffRestMoves(s: seq<byte>)
    ensures Advances(s) <==> !Stuck(Rest(s))
    decreases |s|
  {
    if Complete(s) {
      AdvancesIffRestMoves(s[FirstLength(s)..]);
    }
  }

  /** A reader that stops between chunks holds what is left of the last one. */
  function Reassemble(rest: seq<byte>, chunks: seq<seq<byte>>): seq<seq<byte>>
    decreases chunks
  {
    if chunks == [] then []
    else Packets(rest + chunks[0]) + Reassemble(Rest(rest + chunks[0]), chunks[1..])
  }

  function Leftover(rest: seq<byte>, chunks: seq<seq<byte>>): seq<byte>
    decreases chunks
  {
    if chunks == [] then rest else Leftover(Rest(rest + chunks[0]), chunks[1..])
  }

  /** Chunking does not matter. */
  lemma {:induction false} ReassembleIsSplit(rest: seq<byte>, chunks: seq<seq<byte>>)
    requires !Complete(rest)
    ensures Reassemble(rest, chunks) == Packets(rest + Flatten(chunks))
    ensures Leftover(rest, chunks) == Rest(rest + Flatten(chunks))
    decreases chunks
  {
    if chunks == [] {
      assert rest + Flatten(chunks) == rest;
    } else {
      var a, b := rest + chunks[0], Flatten(chunks[1..]);
      assert rest + Flatten(chunks) == a + b;
      SplitInChunks(a, b);
      ReassembleIsSplit(Rest(a), chunks[1..]);
    }
  }

  /** However a run of packets is cut into chunks, the same packets come out, and nothing is left. */
  lemma ReassembleAnyChunking(ps: seq<seq<byte>>, chunks: seq<seq<byte>>)
    requires ArePackets(ps) && Flatten(chunks) == Flatten(ps)
    ensures Reassemble([], chunks) == ps && Leftover([], chunks) == []
  {
    ReassembleIsSplit([], chunks);
    assert [] + Flatten(chunks) == Flatten(ps) + [];
    SplitOfPackets(ps, []);
  }

  /** Part of a run of packets, cut anywhere, is itself a stream. */
  lemma {:induction false} PrefixIsStream(ps: seq<seq<byte>>, s: seq<byte>)
    requires ArePackets(ps) && s <= Flatten(ps)
    ensures exists k :: 0 <= k <= |ps| && Flatten(ps[..k]) <= s && IsCut(s[|Flatten(ps[..k])|..])
  {
    if ps == [] || |s| < |ps[0]| {
      assert ps[..0] == [];
      assert s[|Flatten(ps[..0])|..] == s;
      if s != [] {
        assert s == ps[0][..|s|];
      }
      assert Flatten(ps[..0]) <= s && IsCut(s);
    } else {
      var p := ps[0];
      assert s[..|p|] == Flatten(ps)[..|p|] == p;
      var t := s[|p|..];
      assert t == Flatten(ps)[|p|..|s|] && Flatten(ps)[|p|..] == Flatten(ps[1..]);
      hide IsCut, IsPacket;
      PrefixIsStream(ps[1..], t);
      var k :| 0 <= k <= |ps[1..]| && Flatten(ps[1..][..k]) <= t && IsCut(t[|Flatten(ps[1..][..k])|..]);
      FlattenFront(ps, k);
      assert s == p + t;
      OneFurther(s, p, t, Flatten(ps[1..][..k]));
    }
  }

  lemma FlattenFront(ps: seq<seq<byte>>, k: nat)
    requires k < |ps|
    ensures Flatten(ps[..k + 1]) == ps[0] + Flatten(ps[1..][..k])
  {
    assert ps[..k + 1][1..] == ps[1..][..k] && ps[..k + 1][0] == ps[0];
  }

  lemma OneFurther(s: seq<byte>, p: seq<byte>, t: seq<byte>, front: seq<byte>)
    requires s == p + t && front <= t
    ensures p + front <= s && s[|p + front|..] == t[|front|..]
  {}

  /** Part of a stream, cut anywhere, is a stream. */
  lemma PrefixOfStream(a: seq<byte>, b: seq<byte>, n: nat)
    requires IsStream(a + b) && n <= |b|
    ensures IsStream(a + b[..n])
  {
    hide IsCut, IsPacket, ArePackets;
    var ps, r := Packets(a + b), Rest(a + b);
    SplitLosesNothing(a + b);
    var s := a + b[..n];
    assert s == (a + b)[..|s|];
    if |s| <= |Flatten(ps)| {
      assert s == Flatten(ps)[..|s|];
      PrefixIsStream(ps, s);
      var k :| 0 <= k <= |ps| && Flatten(ps[..k]) <= s && IsCut(s[|Flatten(ps[..k])|..]);
      assert s == Flatten(ps[..k]) + s[|Flatten(ps[..k])|..];
      FirstPackets(ps, k);
      StreamOfPackets(ps[..k], s[|Flatten(ps[..k])|..]);
    } else {
      var m := |s| - |Flatten(ps)|;
      assert s == Flatten(ps) + r[..m];
      CutOfCut(r, m);
      StreamOfPackets(ps, r[..m]);
    }
  }

  lemma FirstPackets(ps: seq<seq<byte>>, k: nat)
    requires ArePackets(ps) && k <= |ps|
    ensures ArePackets(ps[..k])
  {}

  lemma CutOfCut(r: seq<byte>, m: nat)
    requires IsCut(r) && m <= |r|
    ensures IsCut(r[..m])
  {
    if m > 0 {
      var p: seq<byte> :| IsPacket(p) && |r| < |p| && r == p[..|r|];
      assert r[..m] == p[..m];
    }
  }

  /** Whatever part of a run of packets has arrived, in whatever chunks, a prefix of the run has come out. */
  lemma ReassemblePrefix(ps: seq<seq<byte>>, chunks: seq<seq<byte>>)
    requires ArePackets(ps) && Flatten(chunks) <= Flatten(ps)
    ensures Reassemble([], chunks) <= ps && IsCut(Leftover([], chunks))
    ensures Flatten(chunks) == Flatten(ps) ==> Reassemble([], chunks) == ps
  {
    hide Flatten, Packets, Rest, Reassemble, Leftover, IsPacket, IsCut;
    var s := Flatten(chunks);
    PrefixIsStream(ps, s);
    var k :| 0 <= k <= |ps| && Flatten(ps[..k]) <= s && IsCut(s[|Flatten(ps[..k])|..]);
    ReassembleIsSplit([], chunks);
    assert [] + s == Flatten(ps[..k]) + s[|Flatten(ps[..k])|..];
    SplitOfPackets(ps[..k], s[|Flatten(ps[..k])|..]);
    if s == Flatten(ps) {
      ReassembleAnyChunking(ps, chunks);
    }
  }
}
