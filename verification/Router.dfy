/** A client's table of connections. */
module Routers {
  import opened Bytes
  import opened Headers
  import opened Pending
  import opened Selectors

  // ---- removal from an unordered vector

  /** The last element takes the place of the removed one. */
  function SwapRemove<T>(s: seq<T>, i: nat): (r: seq<T>)
    requires i < |s|
    ensures |r| == |s| - 1
  {
    if i == |s| - 1 then s[..i] else s[..i] + [s[|s| - 1]] + s[i + 1..|s| - 1]
  }

  lemma SwapRemoveMultiset<T>(s: seq<T>, i: nat)
    requires i < |s|
    ensures multiset(SwapRemove(s, i)) == multiset(s) - multiset{s[i]}
  {
    SwapRemoveParts(s, i);
    hide SwapRemove;
    if i < |s| - 1 {
      LastReplaces(s[..i], s[i], s[i + 1..|s| - 1], s[|s| - 1]);
    } else {
      LastLeaves(s[..i], s[i]);
    }
  }

  lemma SwapRemoveParts<T>(s: seq<T>, i: nat)
    requires i < |s|
    ensures i == |s| - 1 ==> s == s[..i] + [s[i]] && SwapRemove(s, i) == s[..i]
    ensures i < |s| - 1 ==> SwapRemove(s, i) == s[..i] + [s[|s| - 1]] + s[i + 1..|s| - 1]
    ensures i < |s| - 1 ==> s == s[..i] + [s[i]] + s[i + 1..|s| - 1] + [s[|s| - 1]]
  {}

  lemma LastLeaves<T>(front: seq<T>, x: T)
    ensures multiset(front) == multiset(front + [x]) - multiset{x}
  {}

  lemma LastReplaces<T>(front: seq<T>, x: T, middle: seq<T>, last: T)
    ensures multiset(front + [last] + middle) == multiset(front + [x] + middle + [last]) - multiset{x}
  {
    var a, b := front + [last], front + [x];
    assert multiset(a) == multiset(front) + multiset{last};
    assert multiset(b) == multiset(front) + multiset{x};
    assert multiset(a + middle) == multiset(a) + multiset(middle);
    assert multiset(b + middle) == multiset(b) + multiset(middle);
    assert multiset(b + middle + [last]) == multiset(b + middle) + multiset{last};
  }

  lemma SwapRemoveDistinct<T>(s: seq<T>, i: nat)
    requires i < |s| && Distinct(s)
    ensures Distinct(SwapRemove(s, i))
    ensures forall x :: x in SwapRemove(s, i) <==> x in s && x != s[i]
  {
    var r := SwapRemove(s, i);
    assert forall k :: 0 <= k < |r| ==> r[k] == if k == i then s[|s| - 1] else s[k];
    forall x | x in s && x != s[i]
      ensures x in r
    {
      var k :| 0 <= k < |s| && s[k] == x;
      assert k == |s| - 1 ==> r[i] == x;
      assert k < |s| - 1 ==> r[k] == x;
    }
  }

  /** The cleaning loop: indices n - 1 down to 0, each doomed element swap-removed. */
  function Sweep<T>(s: seq<T>, doomed: set<T>, n: nat): seq<T>
    requires n <= |s|
    decreases n
  {
    if n == 0 then s
    else if s[n - 1] in doomed then Sweep(SwapRemove(s, n - 1), doomed, n - 1)
    else Sweep(s, doomed, n - 1)
  }

  /** The doomed elements, last first: the order in which the loop closes them. */
  function Doomed<T>(s: seq<T>, doomed: set<T>): seq<T> {
    if s == [] then []
    else (if s[|s| - 1] in doomed then [s[|s| - 1]] else []) + Doomed(s[..|s| - 1], doomed)
  }

  /** The elements to keep, in order. */
  function Kept<T>(s: seq<T>, doomed: set<T>): seq<T> {
    if s == [] then []
    else Kept(s[..|s| - 1], doomed) + if s[|s| - 1] in doomed then [] else [s[|s| - 1]]
  }

  lemma {:induction false} KeptAndDoomed<T>(s: seq<T>, doomed: set<T>)
    ensures multiset(s) == multiset(Kept(s, doomed)) + multiset(Doomed(s, doomed))
    ensures forall x :: x in Kept(s, doomed) <==> x in s && x !in doomed
    ensures forall x :: x in Doomed(s, doomed) <==> x in s && x in doomed
  {
    if s != [] {
      assert s == s[..|s| - 1] + [s[|s| - 1]];
      KeptAndDoomed(s[..|s| - 1], doomed);
    }
  }

  /** `r` is `s` without the elements of `gone`, in any order. */
  ghost predicate Without<T>(s: seq<T>, gone: seq<T>, r: seq<T>) { multiset(r) == multiset(s) - multiset(gone) }

  lemma WithoutOneMore<T>(s: seq<T>, i: nat, gone: seq<T>, r: seq<T>)
    requires i < |s| && Without(SwapRemove(s, i), gone, r)
    ensures Without(s, [s[i]] + gone, r)
  {
    SwapRemoveMultiset(s, i);
    hide SwapRemove;
  }

  lemma WithoutNone<T>(s: seq<T>)
    ensures Without(s, [], s)
  {}

  lemma SwapRemoveBehind<T>(s: seq<T>, i: nat)
    requires i < |s|
    ensures SwapRemove(s, i)[..i] == s[..i]
  {}

  lemma DoomedUpTo<T>(s: seq<T>, doomed: set<T>, n: nat)
    requires 0 < n <= |s|
    ensures var before := Doomed(s[..n - 1], doomed);
      Doomed(s[..n], doomed) == if s[n - 1] in doomed then [s[n - 1]] + before else before
  {
    assert s[..n][..n - 1] == s[..n - 1];
  }

  lemma {:induction false} SweepRemovesDoomed<T>(s: seq<T>, doomed: set<T>, n: nat)
    requires n <= |s|
    ensures Without(s, Doomed(s[..n], doomed), Sweep(s, doomed, n))
    decreases n
  {
    hide Without, SwapRemove;
    if n == 0 {
      WithoutNone(s);
    } else {
      hide Doomed;
      DoomedUpTo(s, doomed, n);
      if s[n - 1] in doomed {
        var r := SwapRemove(s, n - 1);
        SwapRemoveBehind(s, n - 1);
        SweepRemovesDoomed(r, doomed, n - 1);
        WithoutOneMore(s, n - 1, Doomed(s[..n - 1], doomed), Sweep(r, doomed, n - 1));
      } else {
        SweepRemovesDoomed(s, doomed, n - 1);
      }
    }
  }

  /** The loop neither skips nor revisits: what is left is exactly the multiset of elements to keep. */
  lemma SweepLeavesKept<T>(s: seq<T>, doomed: set<T>)
    ensures multiset(Sweep(s, doomed, |s|)) == multiset(Kept(s, doomed))
    ensures forall x :: x in Sweep(s, doomed, |s|) <==> x in s && x !in doomed
  {
    hide Sweep, Kept, Doomed;
    SweepRemovesDoomed(s, doomed, |s|);
    assert s[..|s|] == s;
    KeptAndDoomed(s, doomed);
    assert forall x :: x in Sweep(s, doomed, |s|) <==> x in multiset(Sweep(s, doomed, |s|));
  }

  // ---- the table

  const IDLE_TIMEOUT_SECONDS: nat := 120

  datatype ConnectionId = ConnectionId(
    protocol: Protocol, sourceIp: u32, sourcePort: u16, destinationIp: u32, destinationPort: u16)

  /** Whom an event goes to; clients and the listening socket are `Other`. */
  datatype Handler = Of(connection: Connection) | Other(number: nat)

  class Connection {
    const id: ConnectionId
    const token: nat
    var closed: bool
    var idleSince: nat

    constructor (id: ConnectionId, token: nat, now: nat)
      ensures this.id == id && this.token == token && !closed && idleSince == now
    {
      this.id, this.token := id, token;
      closed, idleSince := false, now;
    }

    /** Only UDP connections expire. */
    predicate IsExpired(now: nat)
      reads this`idleSince
    {
      id.protocol == Udp && now - idleSince > IDLE_TIMEOUT_SECONDS
    }

    /** Closing twice would queue the token twice. */
    method Close(selector: Selector<Handler>, accepted: bool)
      modifies this`closed, selector`tokensToRemove
      ensures closed
      ensures selector.Abs() == old(selector.Abs()).Apply(Op.Deregister(token, accepted))
    {
      closed := true;
      var _ := selector.Deregister(token, accepted);
    }
  }

  ghost predicate DistinctIds(cs: seq<Connection>) {
    forall i, j :: 0 <= i < j < |cs| ==> cs[i].id != cs[j].id
  }

  lemma DistinctIdsDistinct(cs: seq<Connection>)
    requires DistinctIds(cs)
    ensures Distinct(cs)
  {}

  lemma SwapRemoveIds(cs: seq<Connection>, i: nat)
    requires i < |cs| && DistinctIds(cs)
    ensures DistinctIds(SwapRemove(cs, i))
  {
    var r := SwapRemove(cs, i);
    assert forall k :: 0 <= k < |r| ==> r[k] == if k == i then cs[|cs| - 1] else cs[k];
  }

  function Tokens(cs: seq<Connection>): seq<nat> {
    seq(|cs|, i requires 0 <= i < |cs| => cs[i].token)
  }

  lemma TokensAppend(cs: seq<Connection>, c: Connection)
    ensures Tokens(cs + [c]) == Tokens(cs) + [c.token]
    ensures Tokens([c] + cs) == [c.token] + Tokens(cs)
  {}

  /** The cleaning loop has index `i` and below left to look at. */
  ghost predicate Sweeping(table: seq<Connection>, left: seq<Connection>, doomed: set<Connection>, i: nat) {
    i <= |left| && i <= |table| && left[..i] == table[..i] && Sweep(left, doomed, i) == Sweep(table, doomed, |table|)
  }

  ghost predicate Queued(before: seq<nat>, queue: seq<nat>, table: seq<Connection>, doomed: set<Connection>, i: nat) {
    i <= |table| && queue + Tokens(Doomed(table[..i], doomed)) == before + Tokens(Doomed(table, doomed))
  }

  lemma SweepingBegins(table: seq<Connection>, doomed: set<Connection>, queued: set<Connection>, queue: seq<nat>)
    ensures Sweeping(table, table, doomed, |table|) && Queued(queue, queue, table, queued, |table|)
  {
    assert table[..|table|] == table;
  }

  lemma SweepingEnds(table: seq<Connection>, left: seq<Connection>, doomed: set<Connection>, queued: set<Connection>,
                     before: seq<nat>, queue: seq<nat>)
    requires Sweeping(table, left, doomed, 0) && Queued(before, queue, table, queued, 0)
    ensures multiset(left) == multiset(Kept(table, doomed))
    ensures forall c :: c in left <==> c in table && c !in doomed
    ensures queue == before + Tokens(Doomed(table, queued))
  {
    SweepLeavesKept(table, doomed);
  }

  lemma SweepingStep(table: seq<Connection>, left: seq<Connection>, doomed: set<Connection>, i: nat)
    requires Sweeping(table, left, doomed, i + 1)
    ensures i < |left| && i < |table| && left[i] == table[i]
    ensures Sweeping(table, if left[i] in doomed then SwapRemove(left, i) else left, doomed, i)
  {
    assert left[..i + 1][..i] == left[..i] && table[..i + 1][..i] == table[..i];
    assert left[..i + 1][i] == table[..i + 1][i];
  }

  lemma QueuedStep(before: seq<nat>, queue: seq<nat>, table: seq<Connection>, doomed: set<Connection>, i: nat)
    requires Queued(before, queue, table, doomed, i + 1)
    ensures i < |table|
    ensures Queued(before, if table[i] in doomed then queue + [table[i].token] else queue, table, doomed, i)
  {
    assert table[..i + 1][..i] == table[..i];
    TokensAppend(Doomed(table[..i], doomed), table[i]);
  }

  /** The tokens that clearing a table queues. */
  lemma NoneClosed(cs: seq<Connection>, refused: set<Connection>, queue: seq<nat>)
    ensures queue == queue + Tokens(Kept(cs[..0], refused))
  {}

  lemma OneMoreClosed(cs: seq<Connection>, refused: set<Connection>, queue: seq<nat>, i: nat)
    requires i < |cs|
    ensures var before := queue + Tokens(Kept(cs[..i], refused));
      queue + Tokens(Kept(cs[..i + 1], refused)) == if cs[i] in refused then before else before + [cs[i].token]
  {
    assert cs[..i + 1][..i] == cs[..i];
    TokensAppend(Kept(cs[..i], refused), cs[i]);
  }

  class Router {
    var connections: seq<Connection>

    constructor ()
      ensures connections == []
    {
      connections := [];
    }

    /** Open connections only, one an id, each with its own live token; and nothing is queued twice. */
    ghost predicate Valid(selector: Selector<Handler>)
      reads this, selector, set c | c in connections
    {
      && selector.Abs().CanClean()
      && DistinctIds(connections)
      && forall c :: c in connections ==> !c.closed && selector.Abs().Live(c.token, Of(c))
    }

    method FindIndex(id: ConnectionId) returns (index: Option<nat>)
      ensures index.Some? ==> index.value < |connections| && connections[index.value].id == id
      ensures index.None? ==> forall c :: c in connections ==> c.id != id
    {
      for i := 0 to |connections|
        invariant forall k :: 0 <= k < i ==> connections[k].id != id
      {
        if connections[i].id == id {
          return Some(i);
        }
      }
      return None;
    }

    /**
     Forwards a packet of the client to its connection, opening one for a new id; an invalid packet (no transport)
     and a connection that cannot be opened are dropped. `closing` says whether the connection closes itself meanwhile.
     */
    method SendToNetwork(selector: Selector<Handler>, packet: Option<ConnectionId>, creation: Creation,
                         closing: Option<bool>) returns (target: Option<Connection>)
      requires Valid(selector) && (creation.Created? ==> creation.vacant !in selector.handlers)
      modifies this, selector, set c | c in connections
      ensures Valid(selector)
      ensures target.Some? ==>
        packet == Some(target.value.id) && (target.value in old(connections) || fresh(target.value))
      ensures target.None? ==> connections == old(connections)
      ensures packet.Some? && (exists c :: c in old(connections) && c.id == packet.value) ==>
        target.Some? && target.value in old(connections)
      ensures packet.Some? && creation.Created? && packet.value.protocol != Protocol.Other ==> target.Some?
      ensures target.Some? ==> target.value.closed == closing.Some? == (target.value !in connections)
      ensures forall c :: c in old(connections) && Some(c) != target ==> c in connections
      ensures forall c :: c in connections ==> c in old(connections) || target == Some(c)
      ensures forall t :: t in old(selector.handlers) ==>
        t in selector.handlers && selector.handlers[t] == old(selector.handlers[t])
    {
      if packet.None? {
        return None;
      }
      var index := OpenConnection(selector, packet.value, creation);
      if index.None? {
        return None;
      }
      var i := index.value;
      var c := connections[i];
      if closing.Some? {
        CloseAndRemove(selector, i, c, closing.value);
      }
      return Some(c);
    }

    /** The connection with this id, or a new one at the end of the table. */
    method OpenConnection(selector: Selector<Handler>, id: ConnectionId, creation: Creation)
      returns (index: Option<nat>)
      requires Valid(selector) && (creation.Created? ==> creation.vacant !in selector.handlers)
      modifies this, selector`handlers
      ensures Valid(selector)
      ensures index.Some? ==> index.value < |connections| && connections[index.value].id == id
      ensures index.None? ==> connections == old(connections) && forall c :: c in connections ==> c.id != id
      ensures index.None? ==> creation.Refused? || id.protocol == Protocol.Other
      ensures connections == old(connections) || (
        && index == Some(|old(connections)|) && |connections| == |old(connections)| + 1
        && fresh(connections[index.value]) && connections[..index.value] == old(connections)
        && forall c :: c in old(connections) ==> c.id != id)
      ensures forall t :: t in old(selector.handlers) ==>
        t in selector.handlers && selector.handlers[t] == old(selector.handlers[t])
    {
      index := FindIndex(id);
      if index.Some? || creation.Refused? || id.protocol == Protocol.Other {
        return;
      }
      var c := new Connection(id, creation.vacant, creation.now);
      var _ := selector.Register(Of(c), creation.vacant, true);
      connections := connections + [c];
      return Some(|connections| - 1);
    }

    /** Removes a connection that closed itself; it is found exactly when it is in the table. */
    method Remove(connection: Connection) returns (found: bool)
      modifies this
      ensures found <==> connection in old(connections)
      ensures !found ==> connections == old(connections)
      ensures found ==> multiset(connections) == old(multiset(connections)) - multiset{connection}
      ensures found && old(DistinctIds(connections)) ==>
        DistinctIds(connections) && forall c :: c in connections <==> c in old(connections) && c != connection
    {
      for i := 0 to |connections|
        invariant connections == old(connections)
        invariant forall k :: 0 <= k < i ==> connections[k] != connection
      {
        if connections[i] == connection {
          SwapRemoveMultiset(connections, i);
          if DistinctIds(connections) {
            SwapRemoveIds(connections, i);
            DistinctIdsDistinct(connections);
            SwapRemoveDistinct(connections, i);
          }
          connections := SwapRemove(connections, i);
          return true;
        }
      }
      return false;
    }

    /**
     A connection's own event: one that is closed already does nothing,
     one that closes itself is found in its router, and removed.
     */
    method OnReady(selector: Selector<Handler>, connection: Connection, closing: Option<bool>) returns (found: bool)
      requires Valid(selector) && (connection.closed <==> connection !in connections)
      modifies this, selector`tokensToRemove, connection`closed
      ensures found
      ensures Valid(selector) && (connection.closed <==> connection !in connections)
      ensures connection.closed <==> old(connection.closed) || closing.Some?
      ensures forall c :: c in connections <==> c in old(connections) && !(c == connection && closing.Some?)
      ensures old(connection.closed) ==> selector.Abs() == old(selector.Abs()) && connections == old(connections)
    {
      if connection.closed || closing.None? {
        return true;
      }
      connection.Close(selector, closing.value);
      found := Remove(connection);
    }

    /** The client goes away: every connection is closed, once. `refused` are those the system will not deregister. */
    method Clear(selector: Selector<Handler>, refused: set<Connection>)
      requires Valid(selector)
      modifies this, selector`tokensToRemove, (set c | c in connections)`closed
      ensures Valid(selector) && connections == []
      ensures forall c :: c in old(connections) ==> c.closed
      ensures selector.tokensToRemove == old(selector.tokensToRemove) + Tokens(Kept(old(connections), refused))
    {
      hide Kept, Tokens;
      ghost var queue := selector.tokensToRemove;
      NoneClosed(connections, refused, queue);
      for i := 0 to |connections|
        invariant connections == old(connections)
        invariant selector.Abs().CanClean()
        invariant forall k :: 0 <= k < i ==> connections[k].closed
        invariant forall k :: i <= k < |connections| ==> selector.Abs().Live(connections[k].token, Of(connections[k]))
        invariant selector.tokensToRemove == queue + Tokens(Kept(connections[..i], refused))
      {
        OneMoreClosed(connections, refused, queue, i);
        connections[i].Close(selector, connections[i] !in refused);
      }
      assert connections[..|connections|] == connections;
      connections := [];
    }

    method CloseAndRemove(selector: Selector<Handler>, i: nat, c: Connection, accepted: bool)
      requires Valid(selector) && i < |connections| && connections[i] == c
      modifies this, selector`tokensToRemove, c`closed
      ensures Valid(selector)
      ensures connections == old(SwapRemove(connections, i)) && c.closed
      ensures forall d :: d in connections <==> d in old(connections) && d != c
      ensures var queue := old(selector.tokensToRemove);
        selector.tokensToRemove == if accepted then queue + [c.token] else queue
    {
      c.Close(selector, accepted);
      SwapRemoveIds(connections, i);
      DistinctIdsDistinct(connections);
      SwapRemoveDistinct(connections, i);
      connections := SwapRemove(connections, i);
    }

    ghost function Expired(now: nat): set<Connection>
      reads this, set c | c in connections
    {
      set c | c in connections && c.IsExpired(now)
    }

    /** Every expired connection is closed once, the last first; exactly the others stay. */
    method CleanExpired(selector: Selector<Handler>, now: nat, refused: set<Connection>)
      requires Valid(selector)
      modifies this, selector`tokensToRemove, (set c | c in connections)`closed
      ensures Valid(selector)
      ensures var expired := old(Expired(now));
        && multiset(connections) == multiset(Kept(old(connections), expired))
        && (forall c :: c in old(connections) ==> (c.closed <==> c in expired))
        && (forall c :: c in old(connections) ==>
              (c.closed <==> c.id.protocol == Protocol.Udp && now > c.idleSince + 120))
        && selector.tokensToRemove == old(selector.tokensToRemove) + Tokens(Doomed(old(connections), expired - refused))
    {
      ghost var expired := Expired(now);
      ghost var table, queue := connections, selector.tokensToRemove;
      hide Valid, Sweeping, Queued, SwapRemove, Kept, Doomed, Tokens, Expired;
      AllOpen(selector);
      IdleUdpExpires(now);
      SweepingBegins(table, expired, expired - refused, queue);
      for i := |connections| downto 0
        invariant Valid(selector)
        invariant Sweeping(table, connections, expired, i)
        invariant Queued(queue, selector.tokensToRemove, table, expired - refused, i)
        invariant forall c :: c in table ==> (c.closed <==> c !in connections)
        invariant forall c :: c in connections ==> c in table
      {
        SweepingStep(table, connections, expired, i);
        var c := connections[i];
        QueuedStep(queue, selector.tokensToRemove, table, expired - refused, i);
        if c.IsExpired(now) {
          CloseAndRemove(selector, i, c, c !in refused);
        }
      }
      SweepingEnds(table, connections, expired, expired - refused, queue, selector.tokensToRemove);
    }

    lemma IdleUdpExpires(now: nat)
      ensures forall c :: c in Expired(now) <==> c in connections && c.IsExpired(now)
      ensures forall c :: c in connections ==>
        (c.IsExpired(now) <==> c.id.protocol == Protocol.Udp && now > c.idleSince + 120)
    {}

    lemma AllOpen(selector: Selector<Handler>)
      requires Valid(selector)
      ensures forall c :: c in connections ==> !c.closed
    {}
  }

  /** What opening a connection meets: a vacant key of the slab, or an error of the socket or of the registration. */
  datatype Creation = Created(vacant: nat, now: nat) | Refused
}
