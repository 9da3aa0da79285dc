/**
 The whole relay between two polls: every client, every connection and the selector, over any run of the poll loop.
 What sockets and peers do is a parameter of each step.
 */
module EventLoop {
  import opened Bytes
  import opened Pending
  import opened Selectors
  import opened Routers

  /** Whom a token belongs to: the listening socket, a client or a connection, by number. */
  datatype Owner = Server | Peer(client: nat) | Link(connection: nat)

  /** A connection that was opened at some time; `closes` counts the calls of close. */
  datatype LinkState = LinkState(id: nat, token: nat, client: nat, closed: bool, closes: nat)

  /** A client that was accepted at some time, with its router's table. */
  datatype PeerState = PeerState(token: nat, closed: bool, closes: nat, router: seq<nat>)

  /** The expectations of the source that would end the relay. */
  datatype Crash = TokenNotFound | InvalidKey | UnknownConnection | UnknownClient | ClientNotDeregistered

  /** A packet for the network; a new id needs `vacant`, and `closing` says that the connection closes itself. */
  datatype Packet = Packet(id: nat, vacant: Option<nat>, closing: Option<bool>)

  /**
   What a handler's run meets, whichever handler it is: a new client's key, packets of a client,
   the end of the client or of the connection (and whether the system deregisters it), and which connections
   it will not deregister.
   */
  datatype Effect = Effect(accept: Option<nat>, packets: seq<Packet>, closing: Option<bool>, refused: set<nat>)

  datatype Event = Event(token: nat, effect: Effect)

  /** One turn of the poll loop; `expired` is there when the cleaning deadline has passed. */
  datatype Turn = Turn(events: seq<Event>, expired: Option<set<nat>>, refused: set<nat>)

  /** Where `x` stands first. */
  function Position(s: seq<nat>, x: nat): (i: Option<nat>)
    ensures i.Some? <==> x in s
    ensures i.Some? ==> i.value < |s| && s[i.value] == x
  {
    if s == [] then None
    else if s[0] == x then Some(0)
    else match Position(s[1..], x) case Some(i) => Some(i + 1) case None => None
  }

  datatype World = World(
    links: seq<LinkState>, peers: seq<PeerState>, clients: seq<nat>, slab: Slab<Owner>, crash: Option<Crash>)
  {
    function Crashed(c: Crash): World { this.(crash := Some(c)) }

    function WithRouter(c: nat, router: seq<nat>): World
      requires c < |peers|
    {
      this.(peers := peers[c := peers[c].(router := router)])
    }

    function CloseLink(h: nat, accepted: bool): World {
      if h >= |links| then this
      else
        var l := links[h];
        this.(links := links[h := l.(closed := true, closes := l.closes + 1)],
              slab := slab.Apply(Op.Deregister(l.token, accepted)))
    }

    function OpenLink(c: nat, id: nat, key: nat): World
      requires c < |peers| && key !in slab.handlers
    {
      var h := |links|;
      this.(links := links + [LinkState(id, key, c, false, 0)],
            slab := slab.Apply(Op.Register(Link(h), key, true))).WithRouter(c, peers[c].router + [h])
    }

    /** The first connection of a router with this id. */
    function FindIndex(router: seq<nat>, id: nat): (i: Option<nat>)
      ensures i.Some? ==> i.value < |router| && router[i.value] < |links| && links[router[i.value]].id == id
      ensures i.None? ==> forall h :: h in router && h < |links| ==> links[h].id != id
    {
      if router == [] then None
      else if router[0] < |links| && links[router[0]].id == id then Some(0)
      else match FindIndex(router[1..], id) case Some(i) => Some(i + 1) case None => None
    }

    /** A packet goes to its connection, which may close itself; then the router removes it. */
    function Forward(c: nat, i: nat, closing: Option<bool>): World
      requires c < |peers| && i < |peers[c].router|
    {
      if closing.None? then this
      else CloseLink(peers[c].router[i], closing.value).WithRouter(c, SwapRemove(peers[c].router, i))
    }

    function SendToNetwork(c: nat, p: Packet): World
      requires c < |peers|
    {
      var i := FindIndex(peers[c].router, p.id);
      if i.Some? then Forward(c, i.value, p.closing)
      else if p.vacant.None? || p.vacant.value in slab.handlers then this
      else OpenLink(c, p.id, p.vacant.value).Forward(c, |peers[c].router|, p.closing)
    }

    function SendAll(c: nat, packets: seq<Packet>): World
      requires c < |peers|
      decreases |packets|
    {
      if packets == [] then this
      else
        var next := SendToNetwork(c, packets[0]);
        assert |next.peers| == |peers|;
        next.SendAll(c, packets[1..])
    }

    function CloseLinks(hs: seq<nat>, refused: set<nat>): (w: World)
      ensures w.peers == peers && w.clients == clients && w.crash == crash && w.slab.handlers == slab.handlers
      decreases |hs|
    {
      if hs == [] then this else CloseLink(hs[0], hs[0] !in refused).CloseLinks(hs[1..], refused)
    }

    /** The client deregisters itself, clears its router, and tells the server. */
    function CloseClient(c: nat, accepted: bool, refused: set<nat>): World
      requires c < |peers|
    {
      var p := peers[c];
      var w := this.(peers := peers[c := p.(closed := true, closes := p.closes + 1)],
                     slab := slab.Apply(Op.Deregister(p.token, accepted)));
      if !accepted then w.Crashed(ClientNotDeregistered)
      else
        var cleared := w.CloseLinks(p.router, refused).WithRouter(c, []);
        match Position(clients, c)
        case None => cleared.Crashed(UnknownClient)
        case Some(i) => cleared.(clients := SwapRemove(clients, i))
    }

    function ClientEvent(c: nat, e: Effect): World
      requires c < |peers|
    {
      if peers[c].closed then this
      else if e.closing.Some? then CloseClient(c, e.closing.value, e.refused)
      else SendAll(c, e.packets)
    }

    /** A connection's own event; one that closes itself looks itself up in its client's router. */
    function LinkEvent(h: nat, e: Effect): World
      requires h < |links| && links[h].client < |peers|
    {
      if links[h].closed || e.closing.None? then this
      else
        var c := links[h].client;
        var w := CloseLink(h, e.closing.value);
        match Position(peers[c].router, h)
        case None => w.Crashed(UnknownConnection)
        case Some(i) => w.WithRouter(c, SwapRemove(peers[c].router, i))
    }

    function Accept(vacant: Option<nat>): World {
      if vacant.None? || vacant.value in slab.handlers then this
      else
        this.(peers := peers + [PeerState(vacant.value, false, 0, [])],
              clients := clients + [|peers|],
              slab := slab.Apply(Op.Register(Peer(|peers|), vacant.value, true)))
    }

    /** The cleaning loop over one router, from the last connection down. */
    function SweepRouter(c: nat, expired: set<nat>, refused: set<nat>, n: nat): World
      requires c < |peers| && n <= |peers[c].router|
      decreases n
    {
      if n == 0 then this
      else
        var router := peers[c].router;
        var h := router[n - 1];
        if h in expired then
          CloseLink(h, h !in refused).WithRouter(c, SwapRemove(router, n - 1)).SweepRouter(c, expired, refused, n - 1)
        else SweepRouter(c, expired, refused, n - 1)
    }

    function CleanUp(cs: seq<nat>, expired: set<nat>, refused: set<nat>): World
      decreases |cs|
    {
      if cs == [] || cs[0] >= |peers| then this
      else SweepRouter(cs[0], expired, refused, |peers[cs[0]].router|).CleanUp(cs[1..], expired, refused)
    }

    function Dispatch(e: Event): World {
      if crash.Some? then this
      else if e.token !in slab.handlers then Crashed(TokenNotFound)
      else
        match slab.handlers[e.token]
        case Server => Accept(e.effect.accept)
        case Peer(c) => if c < |peers| then ClientEvent(c, e.effect) else this
        case Link(h) => if h < |links| && links[h].client < |peers| then LinkEvent(h, e.effect) else this
    }

    /** A client closes, and the system does not deregister its socket. */
    predicate LosesClient(e: Event)
      requires e.token in slab.handlers
    {
      match slab.handlers[e.token]
      case Peer(c) => c < |peers| && !peers[c].closed && e.effect.closing == Some(false)
      case _ => false
    }

    function DispatchAll(events: seq<Event>): World
      decreases |events|
    {
      if events == [] then this else Dispatch(events[0]).DispatchAll(events[1..])
    }

    /** Frees the tokens given up during the batch. */
    function Clean(): World {
      if crash.Some? then this
      else if slab.CanClean() then this.(slab := slab.Cleaned())
      else Crashed(InvalidKey)
    }

    /** One turn of the loop: the clean-up, when due, and then the handlers of the polled events. */
    function Step(turn: Turn): World {
      if crash.Some? then this
      else if turn.expired.Some? then
        CleanUp(clients, turn.expired.value, turn.refused).DispatchAll(turn.events).Clean()
      else if turn.events == [] then this
      else DispatchAll(turn.events).Clean()
    }

    /** A poll returns events of registered tokens only. */
    predicate Polled(turn: Turn) { forall e :: e in turn.events ==> e.token in slab.handlers }

    predicate Runnable(turns: seq<Turn>)
      decreases |turns|
    {
      turns == [] || (Polled(turns[0]) && Step(turns[0]).Runnable(turns[1..]))
    }

    function Run(turns: seq<Turn>): World
      decreases |turns|
    {
      if turns == [] then this else Step(turns[0]).Run(turns[1..])
    }

    // ---- the invariant

    /** An open connection is in its router's table, with a live token; a closed one was closed once. */
    ghost predicate LinkOk(h: nat)
      requires h < |links|
    {
      var l := links[h];
      && l.client < |peers|
      && l.closes == (if l.closed then 1 else 0)
      && (!l.closed ==> slab.Live(l.token, Link(h)) && h in peers[l.client].router)
    }

    /** A router holds open connections of its client, one an id; a closed client holds none. */
    ghost predicate PeerOk(c: nat)
      requires c < |peers|
    {
      var p := peers[c];
      && p.closes == (if p.closed then 1 else 0)
      && (p.closed ==> p.router == [] && c !in clients)
      && (!p.closed ==> slab.Live(p.token, Peer(c)) && c in clients)
      && Distinct(p.router)
      && (forall h :: h in p.router ==> h < |links| && !links[h].closed && links[h].client == c)
      && (forall g, h :: g in p.router && h in p.router && g != h ==> links[g].id != links[h].id)
    }

    ghost predicate Known() {
      forall t :: t in slab.handlers ==>
        match slab.handlers[t]
        case Server => true
        case Peer(c) => c < |peers|
        case Link(h) => h < |links|
    }

    ghost predicate Sound() {
      && crash == None
      && slab.CanClean()
      && Known()
      && Distinct(clients) && (forall c :: c in clients ==> c < |peers|)
      && (forall h :: 0 <= h < |links| ==> LinkOk(h))
      && (forall c :: 0 <= c < |peers| ==> PeerOk(c))
    }

    /** The only expectation that can fail is that the system deregisters a client's socket. */
    ghost predicate Safe() { Sound() || crash == Some(ClientNotDeregistered) }
  }

  // ---- what each step keeps

  lemma DistinctSnoc<T>(s: seq<T>, x: T)
    requires Distinct(s) && x !in s
    ensures Distinct(s + [x])
  {}

  lemma CloseAndRemoveKeeps(w: World, h: nat, i: nat, accepted: bool)
    requires w.Sound() && h < |w.links| && w.LinkOk(h) && !w.links[h].closed
    requires i < |w.peers[w.links[h].client].router| && w.peers[w.links[h].client].router[i] == h
    ensures var c := w.links[h].client;
      w.CloseLink(h, accepted).WithRouter(c, SwapRemove(w.peers[c].router, i)).Sound()
  {
    var c := w.links[h].client;
    assert w.LinkOk(h) && w.PeerOk(c);
    SwapRemoveDistinct(w.peers[c].router, i);
    var w' := w.CloseLink(h, accepted).WithRouter(c, SwapRemove(w.peers[c].router, i));
    forall g | 0 <= g < |w'.links| ensures w'.LinkOk(g) {
      assert w.LinkOk(g);
    }
    forall d | 0 <= d < |w'.peers| ensures w'.PeerOk(d) {
      assert w.PeerOk(d);
    }
  }

  lemma OpenLinkKeeps(w: World, c: nat, id: nat, key: nat)
    requires w.Sound() && c < |w.peers| && w.PeerOk(c) && !w.peers[c].closed && key !in w.slab.handlers
    requires forall h :: h in w.peers[c].router ==> w.links[h].id != id
    ensures w.OpenLink(c, id, key).Sound()
  {
    var w' := w.OpenLink(c, id, key);
    DistinctSnoc(w.peers[c].router, |w.links|);
    forall g | 0 <= g < |w'.links| ensures w'.LinkOk(g) {
      if g < |w.links| {
        assert w.LinkOk(g);
      }
    }
    forall d | 0 <= d < |w'.peers| ensures w'.PeerOk(d) {
      assert w.PeerOk(d);
    }
  }

  lemma AcceptKeeps(w: World, vacant: Option<nat>)
    requires w.Sound()
    ensures w.Accept(vacant).Sound()
  {
    var w' := w.Accept(vacant);
    DistinctSnoc(w.clients, |w.peers|);
    forall g | 0 <= g < |w'.links| ensures w'.LinkOk(g) {
      assert w.LinkOk(g);
    }
    forall d | 0 <= d < |w'.peers| ensures w'.PeerOk(d) {
      if d < |w.peers| {
        assert w.PeerOk(d);
      }
    }
  }

  lemma ForwardKeeps(w: World, c: nat, i: nat, closing: Option<bool>)
    requires w.Sound() && c < |w.peers| && w.PeerOk(c) && i < |w.peers[c].router|
    ensures w.Forward(c, i, closing).Sound()
  {
    var h := w.peers[c].router[i];
    assert h in w.peers[c].router && w.LinkOk(h);
    if closing.Some? {
      CloseAndRemoveKeeps(w, h, i, closing.value);
    }
  }

  lemma SendToNetworkKeeps(w: World, c: nat, p: Packet)
    requires w.Sound() && c < |w.peers| && !w.peers[c].closed
    ensures var w' := w.SendToNetwork(c, p);
      w'.Sound() && |w'.peers| == |w.peers| && !w'.peers[c].closed
  {
    assert w.PeerOk(c);
    var i := w.FindIndex(w.peers[c].router, p.id);
    if i.Some? {
      ForwardKeeps(w, c, i.value, p.closing);
    } else if p.vacant.Some? && p.vacant.value !in w.slab.handlers {
      OpenLinkKeeps(w, c, p.id, p.vacant.value);
      var grown := w.OpenLink(c, p.id, p.vacant.value);
      assert grown.PeerOk(c);
      ForwardKeeps(grown, c, |w.peers[c].router|, p.closing);
    }
  }

  lemma {:induction false} SendAllKeeps(w: World, c: nat, packets: seq<Packet>)
    requires w.Sound() && c < |w.peers| && !w.peers[c].closed
    ensures w.SendAll(c, packets).Sound()
    decreases |packets|
  {
    if packets != [] {
      SendToNetworkKeeps(w, c, packets[0]);
      SendAllKeeps(w.SendToNetwork(c, packets[0]), c, packets[1..]);
    }
  }

  lemma LinkEventKeeps(w: World, h: nat, e: Effect)
    requires w.Sound() && h < |w.links| && w.links[h].client < |w.peers|
    ensures w.LinkEvent(h, e).Sound()
  {
    assert w.LinkOk(h);
    if !w.links[h].closed && e.closing.Some? {
      var i := Position(w.peers[w.links[h].client].router, h);
      CloseAndRemoveKeeps(w, h, i.value, e.closing.value);
    }
  }

  /** Closing some open connections: each is closed once more, and each of their tokens queued at most once. */
  lemma {:induction false} CloseLinksEffect(w: World, hs: seq<nat>, refused: set<nat>)
    requires Distinct(hs) && w.slab.CanClean()
    requires forall h :: h in hs ==> h < |w.links| && w.slab.Live(w.links[h].token, Link(h))
    ensures var w' := w.CloseLinks(hs, refused);
      && w'.slab.CanClean() && w'.slab.handlers == w.slab.handlers
      && |w'.links| == |w.links|
      && (forall h :: 0 <= h < |w.links| ==>
            w'.links[h] == if h in hs then w.links[h].(closed := true, closes := w.links[h].closes + 1) else w.links[h])
      && (forall t :: t in w'.slab.removed <==>
            t in w.slab.removed || exists h :: h in hs && h !in refused && w.links[h].token == t)
    decreases |hs|
  {
    if hs != [] {
      var next := w.CloseLink(hs[0], hs[0] !in refused);
      assert Distinct(hs[1..]) && hs[0] !in hs[1..];
      forall h | h in hs[1..]
        ensures h < |w.links| && next.slab.Live(next.links[h].token, Link(h))
      {
        assert h in hs;
      }
      CloseLinksEffect(next, hs[1..], refused);
      assert hs == [hs[0]] + hs[1..];
    }
  }

  /** What the end of client `c` does to the world: its connections close, their tokens and its own are given up. */
  ghost predicate ClientGone(w: World, w': World, c: nat, refused: set<nat>)
    requires c < |w.peers|
  {
    var p := w.peers[c];
    && w'.crash == w.crash && w'.slab.CanClean() && w'.slab.handlers == w.slab.handlers
    && w'.peers == w.peers[c := p.(closed := true, closes := p.closes + 1, router := [])]
    && Distinct(w'.clients) && (forall d :: d in w'.clients <==> d in w.clients && d != c)
    && |w'.links| == |w.links|
    && (forall h :: 0 <= h < |w.links| ==>
          w'.links[h] == if h in p.router then w.links[h].(closed := true, closes := w.links[h].closes + 1)
                         else w.links[h])
    && (forall t :: t in w'.slab.removed <==>
          t in w.slab.removed || t == p.token
          || exists h :: h in p.router && h < |w.links| && h !in refused && w.links[h].token == t)
  }

  lemma CloseClientEffect(w: World, c: nat, refused: set<nat>)
    requires w.Sound() && c < |w.peers| && !w.peers[c].closed
    ensures ClientGone(w, w.CloseClient(c, true, refused), c, refused)
  {
    assert w.PeerOk(c);
    var p := w.peers[c];
    var first := w.(peers := w.peers[c := p.(closed := true, closes := p.closes + 1)],
                    slab := w.slab.Apply(Op.Deregister(p.token, true)));
    forall h | h in p.router
      ensures h < |w.links| && first.slab.Live(w.links[h].token, Link(h))
    {
      assert w.LinkOk(h);
    }
    CloseLinksEffect(first, p.router, refused);
    SwapRemoveDistinct(w.clients, Position(w.clients, c).value);
    hide SwapRemove, Distinct, World.CloseLinks, World.Sound;
  }

  lemma ClientGoneKeeps(w: World, w': World, c: nat, refused: set<nat>)
    requires w.Sound() && c < |w.peers| && ClientGone(w, w', c, refused)
    requires !w.peers[c].closed
    ensures w'.Sound()
  {
    var p := w.peers[c];
    assert w.PeerOk(c);
    forall h | 0 <= h < |w'.links| ensures w'.LinkOk(h) {
      assert w.LinkOk(h);
      if !w'.links[h].closed {
        TokenStays(w, w', c, refused, w.links[h].token, Link(h));
      }
    }
    forall d | 0 <= d < |w'.peers| ensures w'.PeerOk(d) {
      assert w.PeerOk(d);
      if d != c && !w.peers[d].closed {
        TokenStays(w, w', c, refused, w.peers[d].token, Peer(d));
      }
    }
  }

  /** Tokens of others are not given up. */
  lemma TokenStays(w: World, w': World, c: nat, refused: set<nat>, t: nat, owner: Owner)
    requires w.Sound() && c < |w.peers| && w.PeerOk(c) && ClientGone(w, w', c, refused) && !w.peers[c].closed
    requires w.slab.Live(t, owner) && owner != Peer(c)
    requires owner.Link? ==> owner.connection !in w.peers[c].router
    ensures w'.slab.Live(t, owner)
  {
    forall h | h in w.peers[c].router && h < |w.links|
      ensures w.links[h].token != t
    {
      assert w.LinkOk(h);
    }
  }

  lemma CloseClientKeeps(w: World, c: nat, accepted: bool, refused: set<nat>)
    requires w.Sound() && c < |w.peers| && !w.peers[c].closed
    ensures w.CloseClient(c, accepted, refused).Safe()
    ensures w.CloseClient(c, accepted, refused).Sound() <==> accepted
  {
    if accepted {
      hide World.Sound, ClientGone, World.CloseClient;
      CloseClientEffect(w, c, refused);
      ClientGoneKeeps(w, w.CloseClient(c, true, refused), c, refused);
    }
  }

  lemma {:induction false} SweepRouterKeeps(w: World, c: nat, expired: set<nat>, refused: set<nat>, n: nat)
    requires w.Sound() && c < |w.peers| && w.PeerOk(c) && n <= |w.peers[c].router|
    ensures var w' := w.SweepRouter(c, expired, refused, n);
      && w'.Sound() && |w'.peers| == |w.peers| && w'.slab.handlers == w.slab.handlers
      && w'.peers == w.peers[c := w.peers[c].(router := Sweep(w.peers[c].router, expired, n))]
    decreases n
  {
    if n > 0 {
      var router := w.peers[c].router;
      var h := router[n - 1];
      assert h in router && w.LinkOk(h);
      if h in expired {
        CloseAndRemoveKeeps(w, h, n - 1, h !in refused);
        var next := w.CloseLink(h, h !in refused).WithRouter(c, SwapRemove(router, n - 1));
        assert next.PeerOk(c);
        SweepRouterKeeps(next, c, expired, refused, n - 1);
      } else {
        SweepRouterKeeps(w, c, expired, refused, n - 1);
      }
    }
  }

  lemma {:induction false} CleanUpKeeps(w: World, cs: seq<nat>, expired: set<nat>, refused: set<nat>)
    requires w.Sound()
    ensures w.CleanUp(cs, expired, refused).Sound()
    ensures w.CleanUp(cs, expired, refused).slab.handlers == w.slab.handlers
    decreases |cs|
  {
    if cs != [] && cs[0] < |w.peers| {
      assert w.PeerOk(cs[0]);
      var n := |w.peers[cs[0]].router|;
      SweepRouterKeeps(w, cs[0], expired, refused, n);
      CleanUpKeeps(w.SweepRouter(cs[0], expired, refused, n), cs[1..], expired, refused);
    }
  }

  lemma DispatchKeeps(w: World, e: Event)
    requires w.Sound() && e.token in w.slab.handlers
    ensures w.Dispatch(e).Safe()
    ensures w.Dispatch(e).Sound() <==> !w.LosesClient(e)
  {
    match w.slab.handlers[e.token]
    case Server => AcceptKeeps(w, e.effect.accept);
    case Peer(c) =>
      if !w.peers[c].closed {
        if e.effect.closing.Some? {
          CloseClientKeeps(w, c, e.effect.closing.value, e.effect.refused);
        } else {
          SendAllKeeps(w, c, e.effect.packets);
        }
      }
    case Link(h) =>
      assert w.LinkOk(h);
      LinkEventKeeps(w, h, e.effect);
  }

  // ---- a batch

  ghost predicate Extends(w: World, w': World) {
    forall t :: t in w.slab.handlers ==> t in w'.slab.handlers && w'.slab.handlers[t] == w.slab.handlers[t]
  }

  lemma SendToNetworkExtends(w: World, c: nat, p: Packet)
    requires c < |w.peers|
    ensures Extends(w, w.SendToNetwork(c, p)) && |w.SendToNetwork(c, p).peers| == |w.peers|
  {
    hide SwapRemove;
  }

  lemma {:induction false} SendAllExtends(w: World, c: nat, packets: seq<Packet>)
    requires c < |w.peers|
    ensures Extends(w, w.SendAll(c, packets))
    decreases |packets|
  {
    if packets != [] {
      SendToNetworkExtends(w, c, packets[0]);
      hide World.SendToNetwork;
      SendAllExtends(w.SendToNetwork(c, packets[0]), c, packets[1..]);
    }
  }

  lemma DispatchExtends(w: World, e: Event)
    ensures Extends(w, w.Dispatch(e))
  {
    if w.crash == None && e.token in w.slab.handlers {
      match w.slab.handlers[e.token]
      case Peer(c) => if c < |w.peers| { SendAllExtends(w, c, e.effect.packets); }
      case _ =>
    }
  }

  ghost predicate AllKnown(w: World, events: seq<Event>) { forall e :: e in events ==> e.token in w.slab.handlers }

  lemma {:induction false} DispatchAllKeeps(w: World, events: seq<Event>)
    requires w.Safe() && AllKnown(w, events)
    ensures w.DispatchAll(events).Safe() && Extends(w, w.DispatchAll(events))
    decreases |events|
  {
    if events != [] {
      var next := w.Dispatch(events[0]);
      if w.Sound() {
        DispatchKeeps(w, events[0]);
      }
      DispatchExtends(w, events[0]);
      assert AllKnown(next, events[1..]);
      DispatchAllKeeps(next, events[1..]);
    }
  }

  /**
   Each event of the batch finds the handler that owned its token when the poll returned,
   whatever the clean-up and the events before it closed or opened.
   */
  lemma EventReachesItsOwner(w: World, turn: Turn, i: nat)
    requires w.Sound() && w.Polled(turn) && i < |turn.events|
    ensures var cleaned := if turn.expired.Some? then w.CleanUp(w.clients, turn.expired.value, turn.refused) else w;
      var now := cleaned.DispatchAll(turn.events[..i]);
      var token := turn.events[i].token;
      token in now.slab.handlers && now.slab.handlers[token] == w.slab.handlers[token]
  {
    if turn.expired.Some? {
      CleanUpKeeps(w, w.clients, turn.expired.value, turn.refused);
    }
    var cleaned := if turn.expired.Some? then w.CleanUp(w.clients, turn.expired.value, turn.refused) else w;
    assert forall e :: e in turn.events[..i] ==> e in turn.events;
    DispatchAllKeeps(cleaned, turn.events[..i]);
    assert turn.events[i] in turn.events;
  }

  /** Freeing the tokens given up takes no live handler away. */
  lemma CleanKeeps(w: World)
    requires w.Sound()
    ensures w.Clean().Sound() && w.Clean().slab.removed == []
  {
    var w' := w.Clean();
    forall h | 0 <= h < |w'.links| ensures w'.LinkOk(h) {
      assert w.LinkOk(h);
    }
    forall d | 0 <= d < |w'.peers| ensures w'.PeerOk(d) {
      assert w.PeerOk(d);
    }
  }

  // ---- runs

  /** What holds at every poll; without a crash no token is waiting to be freed. */
  ghost predicate AtPoll(w: World) {
    w.Safe() && (w.crash == None ==> w.slab.removed == [])
  }

  lemma StepKeeps(w: World, turn: Turn)
    requires AtPoll(w) && w.Polled(turn)
    ensures AtPoll(w.Step(turn))
  {
    if w.Sound() {
      if turn.expired.Some? {
        CleanUpKeeps(w, w.clients, turn.expired.value, turn.refused);
      }
      var cleaned := if turn.expired.Some? then w.CleanUp(w.clients, turn.expired.value, turn.refused) else w;
      DispatchAllKeeps(cleaned, turn.events);
      var ran := cleaned.DispatchAll(turn.events);
      if ran.Sound() {
        CleanKeeps(ran);
      }
    }
  }

  function Start(serverToken: nat): World { World([], [], [], Slab(map[serverToken := Server], []), None) }

  lemma {:induction false} RunKeepsAtPoll(w: World, turns: seq<Turn>)
    requires AtPoll(w) && w.Runnable(turns)
    ensures AtPoll(w.Run(turns))
    decreases |turns|
  {
    if turns != [] {
      StepKeeps(w, turns[0]);
      RunKeepsAtPoll(w.Step(turns[0]), turns[1..]);
    }
  }

  /** A router holds exactly the open connections of its client. */
  lemma RouterIsExact(w: World, c: nat, h: nat)
    requires w.Sound() && c < |w.peers| && h < |w.links|
    ensures h in w.peers[c].router <==> !w.links[h].closed && w.links[h].client == c
    ensures w.peers[c].closes == if w.peers[c].closed then 1 else 0
  {
    assert w.LinkOk(h) && w.PeerOk(c);
  }

  /** Open connections of a client have pairwise distinct ids, open connections of anyone distinct tokens. */
  lemma OpenLinksDiffer(w: World, g: nat, h: nat)
    requires w.Sound() && g < h < |w.links| && !w.links[g].closed && !w.links[h].closed
    ensures w.links[g].token != w.links[h].token
    ensures w.links[g].client == w.links[h].client ==> w.links[g].id != w.links[h].id
  {
    assert w.LinkOk(g) && w.LinkOk(h) && w.PeerOk(w.links[g].client);
  }

  /**
   Over every run of the relay no expectation fails but the one that the system deregisters a client,
   every router holds exactly the open connections of its client, and nothing was ever closed twice.
   */
  lemma RelayIsSafe(serverToken: nat, turns: seq<Turn>)
    requires Start(serverToken).Runnable(turns)
    ensures var w := Start(serverToken).Run(turns);
      && w.crash in {None, Some(ClientNotDeregistered)}
      && (w.crash == None ==>
            && w.slab.removed == []
            && (forall c, h :: 0 <= c < |w.peers| && 0 <= h < |w.links| ==>
                  (h in w.peers[c].router <==> !w.links[h].closed && w.links[h].client == c))
            && (forall h :: 0 <= h < |w.links| ==> w.links[h].closes == if w.links[h].closed then 1 else 0))
  {
    var w := Start(serverToken).Run(turns);
    RunKeepsAtPoll(Start(serverToken), turns);
    if w.crash == None {
      hide World.Sound, World.Run, World.Runnable;
      forall c, h | 0 <= c < |w.peers| && 0 <= h < |w.links|
        ensures h in w.peers[c].router <==> !w.links[h].closed && w.links[h].client == c
      {
        RouterIsExact(w, c, h);
      }
      forall h | 0 <= h < |w.links|
        ensures w.links[h].closes == if w.links[h].closed then 1 else 0
      {
        LinkClosedOnce(w, h);
      }
    }
  }

  lemma LinkClosedOnce(w: World, h: nat)
    requires w.Sound() && h < |w.links|
    ensures w.links[h].closes == if w.links[h].closed then 1 else 0
  {
    assert w.LinkOk(h);
  }
}
