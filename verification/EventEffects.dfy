/** What each handler's run does to the relay's world: who is opened, who is closed, whose token is given up. */
module EventEffects {
  import opened Bytes
  import opened Pending
  import opened Selectors
  import opened Routers
  import opened EventLoop

  /** Connection `h` is closed, leaves its router, and gives up its token if the system lets it. */
  ghost predicate LinkClosed(w: World, w': World, h: nat, accepted: bool) {
    && h < |w.links| && w.links[h].client < |w.peers|
    && var l := w.links[h];
    && w'.links == w.links[h := l.(closed := true, closes := l.closes + 1)]
    && w'.slab == Slab(w.slab.handlers, if accepted then w.slab.removed + [l.token] else w.slab.removed)
    && RouterLoses(w, w', l.client, {h})
    && w'.clients == w.clients && w'.crash == w.crash
  }

  /** The only change to the clients: the router of one of them no longer holds these connections. */
  ghost predicate RouterLoses(w: World, w': World, c: nat, gone: set<nat>)
    requires c < |w.peers|
  {
    && |w'.peers| == |w.peers|
    && w'.peers == w.peers[c := w.peers[c].(router := w'.peers[c].router)]
    && forall g :: g in w'.peers[c].router <==> g in w.peers[c].router && g !in gone
  }

  /** A new connection of client `c`, open, in its router and registered. */
  ghost predicate LinkOpened(w: World, w': World, c: nat, id: nat, key: nat)
    requires c < |w.peers|
  {
    var h := |w.links|;
    w' == w.(links := w.links + [LinkState(id, key, c, false, 0)],
             slab := Slab(w.slab.handlers[key := Link(h)], w.slab.removed),
             peers := w.peers[c := w.peers[c].(router := w.peers[c].router + [h])])
  }

  predicate KnownId(w: World, c: nat, id: nat)
    requires c < |w.peers|
  {
    exists h :: h in w.peers[c].router && h < |w.links| && w.links[h].id == id
  }

  /** A packet with a new id opens exactly one connection, which a failing one leaves again at once. */
  lemma PacketOpens(w: World, c: nat, p: Packet)
    requires w.Sound() && c < |w.peers| && !KnownId(w, c, p.id)
    requires p.vacant.Some? && p.vacant.value !in w.slab.handlers
    ensures var w' := w.SendToNetwork(c, p);
      var key, h := p.vacant.value, |w.links|;
      if p.closing.None? then LinkOpened(w, w', c, p.id, key)
      else
        w' == w.(links := w.links + [LinkState(p.id, key, c, true, 1)],
                 slab := Slab(w.slab.handlers[key := Link(h)],
                              w.slab.removed + if p.closing.value then [key] else []))
  {
    var router := w.peers[c].router;
    assert w.FindIndex(router, p.id).None?;
    assert SwapRemove(router + [|w.links|], |router|) == router;
    var grown := w.OpenLink(c, p.id, p.vacant.value);
    assert grown.peers[c].router == router + [|w.links|];
    assert w.peers[c := w.peers[c].(router := router)] == w.peers;
    if p.closing.Some? {
      assert grown.links[|w.links| := LinkState(p.id, p.vacant.value, c, true, 1)]
          == w.links + [LinkState(p.id, p.vacant.value, c, true, 1)];
    }
  }

  /** Without a key for it, it is dropped. */
  lemma PacketDropped(w: World, c: nat, p: Packet)
    requires w.Sound() && c < |w.peers| && !KnownId(w, c, p.id)
    requires p.vacant.None? || p.vacant.value in w.slab.handlers
    ensures w.SendToNetwork(c, p) == w
  {
    assert w.FindIndex(w.peers[c].router, p.id).None?;
  }

  /** A packet with the id of an open connection opens nothing, and closes that one if it closes itself. */
  lemma PacketForwarded(w: World, c: nat, p: Packet, h: nat)
    requires w.Sound() && c < |w.peers| && h in w.peers[c].router && h < |w.links| && w.links[h].id == p.id
    ensures var w' := w.SendToNetwork(c, p);
      if p.closing.None? then w' == w else LinkClosed(w, w', h, p.closing.value)
  {
    assert w.PeerOk(c) && w.LinkOk(h);
    var i := w.FindIndex(w.peers[c].router, p.id);
    assert w.peers[c].router[i.value] in w.peers[c].router;
    SwapRemoveDistinct(w.peers[c].router, i.value);
    hide SwapRemove;
  }

  /** A connection that closes on its own event. */
  lemma EventCloses(w: World, h: nat, e: Effect)
    requires w.Sound() && h < |w.links| && w.links[h].client < |w.peers|
    ensures var w' := w.LinkEvent(h, e);
      if w.links[h].closed || e.closing.None? then w' == w else LinkClosed(w, w', h, e.closing.value)
  {
    assert w.LinkOk(h);
    if !w.links[h].closed {
      var router := w.peers[w.links[h].client].router;
      assert w.PeerOk(w.links[h].client);
      SwapRemoveDistinct(router, Position(router, h).value);
      hide SwapRemove;
    }
  }

  /** A new client, open, in the server's list and registered. */
  lemma ClientAccepted(w: World, key: nat)
    requires key !in w.slab.handlers
    ensures w.Accept(Some(key))
      == w.(peers := w.peers + [PeerState(key, false, 0, [])], clients := w.clients + [|w.peers|],
            slab := Slab(w.slab.handlers[key := Peer(|w.peers|)], w.slab.removed))
    ensures w.Accept(None) == w
  {}

  /** The packets of one read are routed one after the other. */
  lemma {:induction false} PacketsInTurn(w: World, c: nat, a: seq<Packet>, b: seq<Packet>)
    requires c < |w.peers|
    ensures c < |w.SendAll(c, a).peers| && w.SendAll(c, a + b) == w.SendAll(c, a).SendAll(c, b)
    ensures w.SendAll(c, []) == w && forall p :: w.SendAll(c, [p]) == w.SendToNetwork(c, p)
    decreases |a|
  {
    forall p
      ensures w.SendAll(c, [p]) == w.SendToNetwork(c, p)
    {
      SendToNetworkExtends(w, c, p);
      assert [p][1..] == [];
    }
    if a == [] {
      assert a + b == b;
    } else {
      SendToNetworkExtends(w, c, a[0]);
      assert (a + b)[0] == a[0] && (a + b)[1..] == a[1..] + b;
      PacketsInTurn(w.SendToNetwork(c, a[0]), c, a[1..], b);
    }
  }

  /** An event is served by the handler that its token belongs to. */
  lemma EventServed(w: World, e: Event)
    requires w.Sound() && e.token in w.slab.handlers
    ensures match w.slab.handlers[e.token]
      case Server => w.Dispatch(e) == w.Accept(e.effect.accept)
      case Link(h) =>
        && h < |w.links|
        && if w.links[h].closed || e.effect.closing.None? then w.Dispatch(e) == w
           else LinkClosed(w, w.Dispatch(e), h, e.effect.closing.value)
      case Peer(c) =>
        && c < |w.peers|
        && if w.peers[c].closed then w.Dispatch(e) == w
           else if e.effect.closing == Some(true) then ClientGone(w, w.Dispatch(e), c, e.effect.refused)
           else if e.effect.closing == Some(false) then w.Dispatch(e).crash == Some(ClientNotDeregistered)
           else w.Dispatch(e) == w.SendAll(c, e.effect.packets)
  {
    match w.slab.handlers[e.token]
    case Server =>
    case Link(h) =>
      assert w.LinkOk(h);
      EventCloses(w, h, e.effect);
      hide World.LinkEvent;
    case Peer(c) =>
      if !w.peers[c].closed && e.effect.closing == Some(true) {
        CloseClientEffect(w, c, e.effect.refused);
      }
  }

  /** Freeing takes exactly the handlers of the tokens given up. */
  lemma TokensFreed(w: World)
    requires w.Sound()
    ensures var w' := w.Clean();
      && w' == w.(slab := w'.slab) && w'.slab.removed == []
      && (forall t :: t in w'.slab.handlers <==> t in w.slab.handlers && t !in w.slab.removed)
      && (forall t :: t in w'.slab.handlers ==> w'.slab.handlers[t] == w.slab.handlers[t])
  {}

  /** A turn serves its events after the clean-up, when that is due, and then frees the tokens. */
  lemma TurnServes(w: World, turn: Turn, e: Event)
    requires w.crash == None && turn.events == [e]
    ensures turn.expired.None? ==> w.Step(turn) == w.Dispatch(e).Clean()
    ensures turn.expired.Some? ==>
      w.Step(turn) == w.CleanUp(w.clients, turn.expired.value, turn.refused).Dispatch(e).Clean()
    ensures w.Step(turn.(events := [], expired := None)) == w
  {
    assert turn.events[1..] == [];
    assert w.DispatchAll([e]) == w.Dispatch(e).DispatchAll([]);
    var v := if turn.expired.Some? then w.CleanUp(w.clients, turn.expired.value, turn.refused) else w;
    assert v.DispatchAll([e]) == v.Dispatch(e).DispatchAll([]);
    assert v.Dispatch(e).DispatchAll([]) == v.Dispatch(e);
  }

  /** What would end the relay: a token that nobody owns, or one given up twice or without owner. */
  lemma Expectations(w: World, e: Event)
    requires w.crash == None
    ensures e.token !in w.slab.handlers ==> w.Dispatch(e) == w.(crash := Some(TokenNotFound))
    ensures w.slab.CanClean() ==> w.Clean().crash == None
    ensures !w.slab.CanClean() ==> w.Clean() == w.(crash := Some(InvalidKey))
  {}

  /** Events of a turn are served one after the other, and turns follow each other. */
  lemma {:induction false} EventsInTurn(w: World, a: seq<Event>, b: seq<Event>)
    ensures w.DispatchAll([]) == w && w.DispatchAll(a + b) == w.DispatchAll(a).DispatchAll(b)
    ensures forall e :: w.DispatchAll([e]) == w.Dispatch(e)
    decreases |a|
  {
    forall e
      ensures w.DispatchAll([e]) == w.Dispatch(e)
    {
      assert [e][1..] == [];
    }
    if a == [] {
      assert a + b == b;
    } else {
      assert (a + b)[0] == a[0] && (a + b)[1..] == a[1..] + b;
      EventsInTurn(w.Dispatch(a[0]), a[1..], b);
    }
  }

  lemma {:induction false} TurnsInTurn(w: World, a: seq<Turn>, b: seq<Turn>)
    ensures w.Run([]) == w && w.Run(a + b) == w.Run(a).Run(b)
    ensures w.Runnable(a + b) <==> w.Runnable(a) && w.Run(a).Runnable(b)
    ensures forall t :: w.Run([t]) == w.Step(t)
    ensures forall t :: w.Runnable([t]) <==> forall e :: e in t.events ==> e.token in w.slab.handlers
    decreases |a|
  {
    forall t
      ensures w.Run([t]) == w.Step(t)
      ensures w.Runnable([t]) <==> w.Polled(t)
    {
      assert [t][1..] == [];
    }
    hide World.Step;
    if a == [] {
      assert a + b == b;
    } else {
      assert (a + b)[0] == a[0] && (a + b)[1..] == a[1..] + b;
      TurnsInTurn(w.Step(a[0]), a[1..], b);
    }
  }

  // ---- the clean-up

  /** In the worlds between, some connections have been closed by the clean-up, and nothing else happened. */
  ghost predicate Swept(w: World, w': World, gone: set<nat>) {
    && |w'.links| == |w.links| && |w'.peers| == |w.peers| && w'.clients == w.clients && w'.crash == w.crash
    && w'.slab.handlers == w.slab.handlers
    && (forall h :: 0 <= h < |w.links| ==>
          w'.links[h] == if h in gone then w.links[h].(closed := true, closes := w.links[h].closes + 1) else w.links[h])
    && (forall c :: 0 <= c < |w.peers| ==>
          && w'.peers[c].(router := w.peers[c].router) == w.peers[c]
          && forall g :: g in w'.peers[c].router <==> g in w.peers[c].router && g !in gone)
  }

  /** Their tokens are given up, but for those the system keeps. */
  ghost predicate TokensQueued(w: World, w': World, gone: set<nat>, refused: set<nat>) {
    forall t :: t in w'.slab.removed <==>
      t in w.slab.removed || exists h :: h in gone && h < |w.links| && h !in refused && w.links[h].token == t
  }

  /** The expired ones among the first connections of a router. */
  function ExpiredOf(router: seq<nat>, expired: set<nat>): set<nat> { set h | h in router && h in expired }

  /** One expired connection, the last that the sweep has not looked at. */
  lemma SweepOnce(w: World, c: nat, n: nat, accepted: bool)
    requires w.Sound() && c < |w.peers| && w.PeerOk(c) && 0 < n <= |w.peers[c].router|
    requires w.peers[c].router[n - 1] < |w.links|
    ensures var router := w.peers[c].router;
      var h := router[n - 1];
      var next := w.CloseLink(h, accepted).WithRouter(c, SwapRemove(router, n - 1));
      && next.Sound() && next.PeerOk(c) && next.peers[c].router == SwapRemove(router, n - 1)
      && next.peers[c].router[..n - 1] == router[..n - 1] && h !in router[..n - 1]
      && Swept(w, next, {h})
      && forall refused :: (h !in refused <==> accepted) ==> TokensQueued(w, next, {h}, refused)
  {
    hide Swept, TokensQueued;
    var router := w.peers[c].router;
    var h := router[n - 1];
    assert h in router && w.LinkOk(h);
    CloseAndRemoveKeeps(w, h, n - 1, accepted);
    var next := w.CloseLink(h, accepted).WithRouter(c, SwapRemove(router, n - 1));
    assert next.PeerOk(c);
    OneSwept(w, c, h, next, accepted);
  }

  lemma {:induction false} SweepEffect(w: World, c: nat, expired: set<nat>, refused: set<nat>, n: nat)
    requires w.Sound() && c < |w.peers| && w.PeerOk(c) && n <= |w.peers[c].router|
    ensures var w' := w.SweepRouter(c, expired, refused, n);
      var gone := ExpiredOf(w.peers[c].router[..n], expired);
      Swept(w, w', gone) && TokensQueued(w, w', gone, refused)
    decreases n
  {
    if n > 0 {
      hide Swept, TokensQueued, SwapRemove, World.Sound, World.CloseLink;
      var router := w.peers[c].router;
      var h := router[n - 1];
      assert h in router;
      assert router[..n] == router[..n - 1] + [h];
      if h in expired {
        SweepOnce(w, c, n, h !in refused);
        var next := w.CloseLink(h, h !in refused).WithRouter(c, SwapRemove(router, n - 1));
        SweepEffect(next, c, expired, refused, n - 1);
        SweptTwice(w, next, w.SweepRouter(c, expired, refused, n), {h}, ExpiredOf(router[..n - 1], expired), refused);
        assert ExpiredOf(router[..n], expired) == {h} + ExpiredOf(router[..n - 1], expired);
      } else {
        SweepEffect(w, c, expired, refused, n - 1);
        assert ExpiredOf(router[..n], expired) == ExpiredOf(router[..n - 1], expired);
      }
    }
  }

  lemma OneSwept(w: World, c: nat, h: nat, next: World, accepted: bool)
    requires w.Sound() && h < |w.links| && w.links[h].client == c && c < |w.peers| && w.LinkOk(h)
    requires h in w.peers[c].router && w.PeerOk(c) && !w.links[h].closed
    requires exists i :: 0 <= i < |w.peers[c].router| && w.peers[c].router[i] == h
                         && next == w.CloseLink(h, accepted).WithRouter(c, SwapRemove(w.peers[c].router, i))
    ensures Swept(w, next, {h})
    ensures forall refused :: (h !in refused <==> accepted) ==> TokensQueued(w, next, {h}, refused)
  {
    var i :| 0 <= i < |w.peers[c].router| && w.peers[c].router[i] == h
             && next == w.CloseLink(h, accepted).WithRouter(c, SwapRemove(w.peers[c].router, i));
    SwapRemoveDistinct(w.peers[c].router, i);
    hide SwapRemove;
    forall d | 0 <= d < |w.peers| && d != c
      ensures h !in w.peers[d].router
    {
      assert w.PeerOk(d);
    }
  }

  lemma SweptTwice(w: World, v: World, u: World, a: set<nat>, b: set<nat>, refused: set<nat>)
    requires Swept(w, v, a) && Swept(v, u, b) && a !! b
    requires TokensQueued(w, v, a, refused) && TokensQueued(v, u, b, refused)
    ensures Swept(w, u, a + b) && TokensQueued(w, u, a + b, refused)
  {}

  /** The clients of `cs` are swept in turn. */
  lemma {:induction false} CleanUpEffect(w: World, cs: seq<nat>, expired: set<nat>, refused: set<nat>)
    requires w.Sound() && forall c :: c in cs ==> c < |w.peers|
    ensures var w' := w.CleanUp(cs, expired, refused);
      var gone := set h | 0 <= h < |w.links| && !w.links[h].closed && w.links[h].client in cs && h in expired;
      Swept(w, w', gone) && TokensQueued(w, w', gone, refused)
    decreases |cs|
  {
    var gone := set h | 0 <= h < |w.links| && !w.links[h].closed && w.links[h].client in cs && h in expired;
    if cs == [] {
      assert gone == {};
    } else {
      var c := cs[0];
      assert c in cs && forall d :: d in cs[1..] ==> d in cs;
      assert w.PeerOk(c);
      var router := w.peers[c].router;
      SweepRouterKeeps(w, c, expired, refused, |router|);
      SweepEffect(w, c, expired, refused, |router|);
      assert router[..|router|] == router;
      var next := w.SweepRouter(c, expired, refused, |router|);
      CleanUpEffect(next, cs[1..], expired, refused);
      var first := ExpiredOf(router, expired);
      var rest :=
        set h | 0 <= h < |next.links| && !next.links[h].closed && next.links[h].client in cs[1..] && h in expired;
      forall h | 0 <= h < |w.links|
        ensures h in gone <==> h in first || h in rest
      {
        RouterIsExact(w, c, h);
      }
      assert forall h :: h in first ==> h < |w.links|;
      assert gone == first + rest;
      hide World.Sound, World.SweepRouter;
      SweptTwice(w, next, w.CleanUp(cs, expired, refused), first, rest, refused);
    }
  }

  /** The clean-up closes exactly the expired connections that are open, once each. */
  lemma CleanUpCloses(w: World, expired: set<nat>, refused: set<nat>)
    requires w.Sound()
    ensures var w' := w.CleanUp(w.clients, expired, refused);
      var gone := set h | 0 <= h < |w.links| && !w.links[h].closed && h in expired;
      Swept(w, w', gone) && TokensQueued(w, w', gone, refused)
  {
    CleanUpEffect(w, w.clients, expired, refused);
    forall h | 0 <= h < |w.links| && !w.links[h].closed
      ensures w.links[h].client in w.clients
    {
      assert w.LinkOk(h) && w.PeerOk(w.links[h].client);
    }
    assert (set h | 0 <= h < |w.links| && !w.links[h].closed && w.links[h].client in w.clients && h in expired)
        == (set h | 0 <= h < |w.links| && !w.links[h].closed && h in expired);
  }
}
