/** One pass over the deferred packets: each, in order, is queued if it fits then and kept if not. */
module Pending {
  import opened Bytes

  /** A deferred packet: the length its header declares by now, its raw bytes, and whether its source is still open. */
  datatype Deferred = Deferred(declared: nat, raw: seq<byte>, open: bool)

  predicate Sound(d: Deferred) { 0 < |d.raw| < MAX_PACKET_LENGTH && 0 < d.declared < MAX_PACKET_LENGTH }

  predicate AllSound(ds: seq<Deferred>) { forall i :: 0 <= i < |ds| ==> Sound(ds[i]) }

  /** The declared length fits, but the raw bytes do not, or nobody is there to be told: an assertion fails. */
  predicate TripsOne(d: Deferred, room: nat) { d.declared <= room && (room < |d.raw| || !d.open) }

  /** Some packet of the pass fails an assertion, with `room` bytes left before it. */
  predicate Trips(ds: seq<Deferred>, room: nat) {
    ds != [] && (TripsOne(ds[0], room) || Trips(ds[1..], Left(ds[0], room)))
  }

  /** The room behind a packet. */
  function Left(d: Deferred, room: nat): nat { if |d.raw| <= room && d.declared <= room then room - |d.raw| else room }

  /** Intact packets of open sources never do. */
  lemma {:induction false} IntactNeverTrips(ds: seq<Deferred>, room: nat)
    requires forall i :: 0 <= i < |ds| ==> ds[i].open && |ds[i].raw| <= ds[i].declared
    ensures !Trips(ds, room)
  {
    if ds != [] {
      IntactNeverTrips(ds[1..], Left(ds[0], room));
    }
  }

  /** Which packets of the pass are delivered, with `room` bytes left before it. */
  function Pass(ds: seq<Deferred>, room: nat): (delivered: seq<bool>)
    ensures |delivered| == |ds|
  {
    if ds == [] then [] else [ds[0].declared <= room] + Pass(ds[1..], Left(ds[0], room))
  }

  /** The elements whose flag is `want`, in order. */
  function Select<T>(xs: seq<T>, flags: seq<bool>, want: bool): seq<T>
    requires |xs| == |flags|
  {
    if xs == [] then []
    else (if flags[0] == want then [xs[0]] else []) + Select(xs[1..], flags[1..], want)
  }

  lemma {:induction false} SelectSnoc<T>(xs: seq<T>, flags: seq<bool>, want: bool, x: T, flag: bool)
    requires |xs| == |flags|
    ensures Select(xs + [x], flags + [flag], want) == Select(xs, flags, want) + if flag == want then [x] else []
  {
    if xs == [] {
      assert xs + [x] == [x] && flags + [flag] == [flag];
    } else {
      assert (xs + [x])[1..] == xs[1..] + [x] && (flags + [flag])[1..] == flags[1..] + [flag];
      SelectSnoc(xs[1..], flags[1..], want, x, flag);
    }
  }

  lemma SelectStep<T>(xs: seq<T>, i: nat, flags: seq<bool>, want: bool, flag: bool)
    requires i < |xs| && |flags| == i
    ensures Select(xs[..i + 1], flags + [flag], want)
      == Select(xs[..i], flags, want) + if flag == want then [xs[i]] else []
  {
    assert xs[..i + 1] == xs[..i] + [xs[i]];
    SelectSnoc(xs[..i], flags, want, xs[i], flag);
  }

  /** `done` is what the pass decided for the first packets, leaving `left` bytes for the others. */
  ghost predicate SoFar(ds: seq<Deferred>, room: nat, done: seq<bool>, left: nat) {
    && AllSound(ds) && |done| <= |ds|
    && Pass(ds, room) == done + Pass(ds[|done|..], left)
    && Trips(ds, room) == Trips(ds[|done|..], left)
  }

  lemma PassBegins(ds: seq<Deferred>, room: nat)
    requires AllSound(ds)
    ensures SoFar(ds, room, [], room)
  {
    assert ds[0..] == ds;
  }

  lemma PassEnds(ds: seq<Deferred>, room: nat, done: seq<bool>, left: nat)
    requires SoFar(ds, room, done, left) && |done| == |ds|
    ensures Pass(ds, room) == done && !Trips(ds, room)
  {
    assert ds[|done|..] == [];
  }

  lemma SelectNone<T>(xs: seq<T>, flags: seq<bool>, want: bool)
    requires flags == []
    ensures Select(xs[..0], flags, want) == []
  {}

  lemma PassStep(ds: seq<Deferred>, room: nat, done: seq<bool>, left: nat)
    requires SoFar(ds, room, done, left) && |done| < |ds|
    ensures var d := ds[|done|];
      && Sound(d)
      && (TripsOne(d, left) ==> Trips(ds, room))
      && (!TripsOne(d, left) ==> SoFar(ds, room, done + [d.declared <= left], Left(d, left)))
  {
    var rest := ds[|done|..];
    assert rest[0] == ds[|done|] && rest[1..] == ds[|done| + 1..];
    if !TripsOne(ds[|done|], left) {
      var next := done + [ds[|done|].declared <= left];
      assert next + Pass(rest[1..], Left(rest[0], left)) == done + Pass(rest, left);
    }
  }

  lemma {:induction false} SelectMembers<T>(xs: seq<T>, flags: seq<bool>, want: bool)
    requires |xs| == |flags|
    ensures forall k :: 0 <= k < |xs| && flags[k] == want ==> xs[k] in Select(xs, flags, want)
    ensures forall x :: x in Select(xs, flags, want) ==> exists k :: 0 <= k < |xs| && xs[k] == x && flags[k] == want
  {
    if xs != [] {
      SelectMembers(xs[1..], flags[1..], want);
      var tail := Select(xs[1..], flags[1..], want);
      forall x | x in tail
        ensures exists k :: 0 <= k < |xs| && xs[k] == x && flags[k] == want
      {
        var k :| 0 <= k < |xs[1..]| && xs[1..][k] == x && flags[1..][k] == want;
        assert xs[k + 1] == x && flags[k + 1] == want;
      }
      forall k | 0 <= k < |xs| && flags[k] == want
        ensures xs[k] in Select(xs, flags, want)
      {
        if k > 0 {
          assert xs[1..][k - 1] in tail;
        }
      }
    }
  }

  predicate Distinct<T(==)>(xs: seq<T>) { forall i, j :: 0 <= i < j < |xs| ==> xs[i] != xs[j] }

  lemma {:induction false} SelectDistinct<T>(xs: seq<T>, flags: seq<bool>, want: bool)
    requires |xs| == |flags| && Distinct(xs)
    ensures Distinct(Select(xs, flags, want))
  {
    if xs != [] {
      assert forall i, j :: 0 <= i < j < |xs[1..]| ==> xs[1..][i] != xs[1..][j];
      SelectDistinct(xs[1..], flags[1..], want);
      SelectMembers(xs[1..], flags[1..], want);
      var tail := Select(xs[1..], flags[1..], want);
      assert forall x :: x in tail ==> x in xs[1..];
      assert xs[0] !in xs[1..];
      assert Select(xs, flags, want) == (if flags[0] == want then [xs[0]] else []) + tail;
    }
  }

  /** Every entry is either delivered or kept, exactly once. */
  lemma {:induction false} PassSplits<T>(xs: seq<T>, flags: seq<bool>)
    requires |xs| == |flags|
    ensures multiset(xs) == multiset(Select(xs, flags, true)) + multiset(Select(xs, flags, false))
  {
    if xs != [] {
      assert xs == [xs[0]] + xs[1..];
      PassSplits(xs[1..], flags[1..]);
    }
  }

  function Raws(ds: seq<Deferred>): (raws: seq<seq<byte>>)
    ensures |raws| == |ds|
  {
    seq(|ds|, i requires 0 <= i < |ds| => ds[i].raw)
  }

  /** The first packet in line is delivered whenever it fits. */
  lemma FirstInLine(ds: seq<Deferred>, room: nat)
    requires ds != [] && ds[0].declared <= room
    ensures Select(ds, Pass(ds, room), true) != [] && Select(ds, Pass(ds, room), true)[0] == ds[0]
  {}
}
