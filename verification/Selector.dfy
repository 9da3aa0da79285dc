/** The event selector: a slab of handlers, and the tokens to free once the current batch has run. */
module Selectors {
  import opened Bytes
  import opened Pending

  /** What a handler may ask of the selector; the slab picks the vacant key, the system accepts or refuses. */
  datatype Op<H> =
    | Register(handler: H, vacant: nat, accepted: bool)
    | Deregister(token: nat, accepted: bool)

  datatype Slab<H> = Slab(handlers: map<nat, H>, removed: seq<nat>) {
    /** The slab hands out vacant keys only. */
    predicate Allows(op: Op<H>) { op.Register? ==> op.vacant !in handlers }

    function Apply(op: Op<H>): Slab<H>
      requires Allows(op)
    {
      match op
      case Register(h, key, accepted) => if accepted then this.(handlers := handlers[key := h]) else this
      case Deregister(token, accepted) => if accepted then this.(removed := removed + [token]) else this
    }

    predicate AllowsAll(ops: seq<Op<H>>)
      decreases |ops|
    {
      ops == [] || (Allows(ops[0]) && Apply(ops[0]).AllowsAll(ops[1..]))
    }

    function ApplyAll(ops: seq<Op<H>>): Slab<H>
      requires AllowsAll(ops)
      decreases |ops|
    {
      if ops == [] then this else Apply(ops[0]).ApplyAll(ops[1..])
    }

    /** Freeing a token that is not there panics. */
    predicate CanClean() { Distinct(removed) && forall t :: t in removed ==> t in handlers }

    function Cleaned(): Slab<H> { Slab(handlers - set t | t in removed, []) }

    /** The token belongs to this handler, and nobody has given it up. */
    ghost predicate Live(token: nat, owner: H) { token in handlers && handlers[token] == owner && token !in removed }
  }

  /** Nothing a handler asks for takes a handler away or replaces it before the batch ends. */
  lemma {:induction false} HandlersStay<H>(s: Slab<H>, ops: seq<Op<H>>)
    requires s.AllowsAll(ops)
    ensures s.handlers.Keys <= s.ApplyAll(ops).handlers.Keys
    ensures forall t :: t in s.handlers ==> s.ApplyAll(ops).handlers[t] == s.handlers[t]
    decreases |ops|
  {
    if ops != [] {
      HandlersStay(s.Apply(ops[0]), ops[1..]);
    }
  }

  lemma {:induction false} ApplyAllAppend<H>(s: Slab<H>, a: seq<Op<H>>, b: seq<Op<H>>)
    requires s.AllowsAll(a + b)
    ensures s.AllowsAll(a) && s.ApplyAll(a).AllowsAll(b)
    ensures s.ApplyAll(a + b) == s.ApplyAll(a).ApplyAll(b)
    decreases |a|
  {
    if a == [] {
      assert a + b == b;
    } else {
      assert (a + b)[0] == a[0] && (a + b)[1..] == a[1..] + b;
      ApplyAllAppend(s.Apply(a[0]), a[1..], b);
    }
  }

  /** The tokens given up, in order. */
  function GivenUp<H>(ops: seq<Op<H>>): seq<nat> {
    if ops == [] then []
    else (if ops[0].Deregister? && ops[0].accepted then [ops[0].token] else []) + GivenUp(ops[1..])
  }

  /** What handlers ask for is done: accepted registrations are there, and accepted deregistrations wait their turn. */
  lemma {:induction false} RequestsAreKept<H>(s: Slab<H>, ops: seq<Op<H>>)
    requires s.AllowsAll(ops)
    ensures s.ApplyAll(ops).removed == s.removed + GivenUp(ops)
    ensures forall i :: 0 <= i < |ops| && ops[i].Register? && ops[i].accepted ==>
      ops[i].vacant in s.ApplyAll(ops).handlers && s.ApplyAll(ops).handlers[ops[i].vacant] == ops[i].handler
    ensures forall t :: t in s.ApplyAll(ops).handlers ==>
      t in s.handlers || exists i :: 0 <= i < |ops| && ops[i].Register? && ops[i].accepted && ops[i].vacant == t
    decreases |ops|
  {
    if ops != [] {
      var next := s.Apply(ops[0]);
      RequestsAreKept(next, ops[1..]);
      HandlersStay(next, ops[1..]);
      var after := s.ApplyAll(ops);
      forall i | 0 <= i < |ops| && ops[i].Register? && ops[i].accepted
        ensures ops[i].vacant in after.handlers && after.handlers[ops[i].vacant] == ops[i].handler
      {
        assert i > 0 ==> ops[1..][i - 1] == ops[i];
      }
      forall t | t in after.handlers && t !in s.handlers
        ensures exists i :: 0 <= i < |ops| && ops[i].Register? && ops[i].accepted && ops[i].vacant == t
      {
        if t !in next.handlers {
          var i :| 0 <= i < |ops[1..]| && ops[1..][i].Register? && ops[1..][i].accepted && ops[1..][i].vacant == t;
          assert ops[i + 1] == ops[1..][i];
        } else {
          assert ops[0].Register? && ops[0].accepted && ops[0].vacant == t;
        }
      }
    }
  }

  /** Freed tokens are vacant again, and nobody else's handler is gone. */
  lemma FreedIsVacant<H>(s: Slab<H>)
    ensures s.Cleaned().removed == []
    ensures forall t :: t in s.Cleaned().handlers <==> t in s.handlers && t !in s.removed
    ensures forall t :: t in s.Cleaned().handlers ==> s.Cleaned().handlers[t] == s.handlers[t]
  {}

  /** A key issued during the batch is none that the poll knew, given up or not: its events cannot be misdelivered. */
  lemma IssuedIsNew<H>(s: Slab<H>, ops: seq<Op<H>>, i: nat)
    requires s.AllowsAll(ops) && i < |ops| && ops[i].Register?
    ensures ops[i].vacant !in s.handlers
  {
    assert ops == ops[..i] + ops[i..];
    ApplyAllAppend(s, ops[..i], ops[i..]);
    HandlersStay(s, ops[..i]);
  }

  class Selector<H> {
    var handlers: map<nat, H>
    var tokensToRemove: seq<nat>

    constructor ()
      ensures Abs() == Slab(map[], [])
    {
      handlers, tokensToRemove := map[], [];
    }

    ghost function Abs(): Slab<H>
      reads this
    {
      Slab(handlers, tokensToRemove)
    }

    method Register(handler: H, vacant: nat, accepted: bool) returns (token: Option<nat>)
      requires vacant !in handlers
      modifies this`handlers
      ensures Abs() == old(Abs()).Apply(Op.Register(handler, vacant, accepted))
      ensures token == if accepted then Some(vacant) else None
    {
      handlers := handlers[vacant := handler];
      if !accepted {
        handlers := handlers - {vacant};
        return None;
      }
      return Some(vacant);
    }

    method Deregister(token: nat, accepted: bool) returns (ok: bool)
      modifies this`tokensToRemove
      ensures Abs() == old(Abs()).Apply(Op.Deregister(token, accepted))
      ensures ok == accepted
    {
      if accepted {
        tokensToRemove := tokensToRemove + [token];
      }
      return accepted;
    }

    /** Succeeds exactly when every token is queued once and still has its handler. */
    method CleanRemovedTokens() returns (ok: bool)
      modifies this
      ensures ok <==> old(Abs().CanClean())
      ensures ok ==> Abs() == old(Abs()).Cleaned()
    {
      for i := 0 to |tokensToRemove|
        invariant tokensToRemove == old(tokensToRemove)
        invariant Distinct(tokensToRemove[..i]) && forall t :: t in tokensToRemove[..i] ==> t in old(handlers)
        invariant handlers == old(handlers) - set t | t in tokensToRemove[..i]
      {
        var token := tokensToRemove[i];
        assert tokensToRemove[..i + 1] == tokensToRemove[..i] + [token];
        if token !in handlers {
          assert token in tokensToRemove[..i] ==> !Distinct(tokensToRemove);
          return false;
        }
        handlers := handlers - {token};
      }
      assert tokensToRemove[..|tokensToRemove|] == tokensToRemove;
      tokensToRemove := [];
      return true;
    }

    method Perform(op: Op<H>)
      requires Abs().Allows(op)
      modifies this
      ensures Abs() == old(Abs()).Apply(op)
    {
      match op {
        case Register(handler, vacant, accepted) => var _ := Register(handler, vacant, accepted);
        case Deregister(token, accepted) => var _ := Deregister(token, accepted);
      }
    }

    /** One handler's run. */
    method OnReady(ops: seq<Op<H>>)
      requires Abs().AllowsAll(ops)
      modifies this
      ensures Abs() == old(Abs()).ApplyAll(ops)
    {
      for i := 0 to |ops|
        invariant Abs().AllowsAll(ops[i..])
        invariant Abs().ApplyAll(ops[i..]) == old(Abs()).ApplyAll(ops)
      {
        assert ops[i..][1..] == ops[i + 1..];
        Perform(ops[i]);
      }
    }

    /**
     A batch: each event runs the handler that owned its token when the poll returned,
     whatever the handlers before it did, so the look-up never fails.
     The batch ends well exactly when no token was given up twice or without an owner.
     */
    method RunHandlers(events: seq<nat>, scripts: seq<seq<Op<H>>>) returns (ran: seq<H>, ok: bool)
      requires |events| == |scripts|
      requires forall i :: 0 <= i < |events| ==> events[i] in handlers
      requires Abs().AllowsAll(Flatten(scripts))
      modifies this
      ensures |ran| == |events|
      ensures forall i :: 0 <= i < |events| ==> ran[i] == old(handlers[events[i]])
      ensures ok <==> old(Abs().ApplyAll(Flatten(scripts)).CanClean())
      ensures ok ==> Abs() == old(Abs().ApplyAll(Flatten(scripts)).Cleaned())
    {
      ran := [];
      for i := 0 to |events|
        invariant |ran| == i
        invariant forall k :: 0 <= k < i ==> ran[k] == old(handlers[events[k]])
        invariant Abs().AllowsAll(Flatten(scripts[i..]))
        invariant Abs().ApplyAll(Flatten(scripts[i..])) == old(Abs().ApplyAll(Flatten(scripts)))
        invariant forall t :: t in old(handlers) ==> t in handlers && handlers[t] == old(handlers[t])
      {
        assert scripts[i..][1..] == scripts[i + 1..];
        ApplyAllAppend(Abs(), scripts[i], Flatten(scripts[i + 1..]));
        HandlersStay(Abs(), scripts[i]);
        ran := ran + [handlers[events[i]]];
        OnReady(scripts[i]);
      }
      assert scripts[|events|..] == [];
      ok := CleanRemovedTokens();
    }
  }
}
