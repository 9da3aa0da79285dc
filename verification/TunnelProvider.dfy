/**
 The phone's provider of relay tunnels, used by any number of threads at once.
 Every action is one atomic step of one thread; an action of a blocked thread changes nothing,
 so that a sequence of actions is an arbitrary interleaving.
 */
module TunnelProvider {
  import opened Bytes

  const DELAY_BETWEEN_ATTEMPTS_MS: nat := 5000

  /** Where a thread stands. Tunnels are numbered in the order of their opening. */
  datatype Pc =
    | Idle                                // about to send or receive
    | WantOuter                           // calls getCurrentTunnel
    | WantInner                           // holds the outer lock
    | Waiting                             // holds the outer lock, has released the inner one
    | Opened                              // holds the outer lock, has just opened a tunnel
    | Connecting(tunnel: Option<nat>)     // holds the outer lock, connects what the field held
    | Failing                             // holds the outer lock, records that connecting failed
    | Returning                           // holds no lock any more, reads the field for its result
    | Using(tunnel: Option<nat>)
    | Closing                             // close() of the whole provider
    | WantInvalidate(tunnel: Option<nat>, last: bool)
    | Invalidating(last: bool)            // holds the inner lock, has closed the tunnel
    | Ended                               // returned for good, or died of an unchecked exception
  {
    predicate Neutral() {
      Idle? || WantOuter? || Returning? || Using? || Closing? || WantInvalidate? || Ended?
    }

    predicate HoldsOuter() { WantInner? || Waiting? || Opened? || Connecting? || Failing? }
  }

  /** What the environment makes of a step. */
  datatype Choice = Choice(ok: bool, later: nat, interrupted: bool)

  datatype Action = Tick(elapsed: nat) | Step(thread: nat, choice: Choice)

  datatype Entry = Open(time: int) | Failure(time: int)

  /** Per tunnel: calls of connect, calls of close, and how many of those threw. */
  datatype Use = Use(connects: nat, closes: nat, throws: nat)

  datatype State = State(
    pcs: seq<Pc>, outer: Option<nat>, inner: Option<nat>,
    tunnel: Option<nat>, first: bool, lastFailure: int, stopped: bool,
    now: int, uses: seq<Use>, log: seq<Entry>)
  {
    function Goto(i: nat, pc: Pc): State
      requires i < |pcs|
    {
      this.(pcs := pcs[i := pc])
    }

    function TouchFailure(): State { this.(lastFailure := now, log := log + [Failure(now)]) }

    /** Open now if the slot has come, wait otherwise. The clock may go on between the test and the opening. */
    function WaitOrOpen(i: nat, later: nat): State
      requires i < |pcs|
    {
      if !first && lastFailure + DELAY_BETWEEN_ATTEMPTS_MS - now > 0 then Goto(i, Waiting)
      else
        this.(tunnel := Some(|uses|), uses := uses + [Use(0, 0, 0)], now := now + later,
              log := log + [Open(now + later)]).Goto(i, Opened)
    }

    function Invalidate(i: nat, arg: Option<nat>, last: bool, throws: bool): State
      requires i < |pcs|
    {
      var done := if last then Ended else Idle;
      if tunnel.None? || (arg.Some? && tunnel != arg) || tunnel.value >= |uses| then Goto(i, done)
      else
        var u := uses[tunnel.value];
        var failed := TouchFailure();
        if throws then
          failed.(uses := uses[tunnel.value := u.(closes := u.closes + 1, throws := u.throws + 1)]).Goto(i, Ended)
        else
          failed.(uses := uses[tunnel.value := u.(closes := u.closes + 1)],
                  inner := Some(i)).Goto(i, Invalidating(last))
    }

    function Advance(i: nat, c: Choice): State
      requires i < |pcs|
    {
      match pcs[i]
      case Idle => Goto(i, if stopped then Ended else WantOuter)
      case WantOuter => if outer.Some? then this else this.(outer := Some(i)).Goto(i, WantInner)
      case WantInner =>
        if inner.Some? then this
        else if tunnel.Some? then this.(outer := None).Goto(i, Using(tunnel))
        else WaitOrOpen(i, c.later)
      case Waiting =>
        if inner.Some? then this
        else if c.interrupted then this.(outer := None).Goto(i, Idle)
        else WaitOrOpen(i, c.later)
      case Opened =>
        var started := this.(first := false).Goto(i, Connecting(tunnel));
        if tunnel.None? || tunnel.value >= |uses| then started
        else started.(uses := uses[tunnel.value := uses[tunnel.value].(connects := uses[tunnel.value].connects + 1)])
      case Connecting(t) =>
        if t.None? then this.(outer := None).Goto(i, Ended)
        else if c.ok then this.(outer := None).Goto(i, Returning)
        else Goto(i, Failing)
      case Failing => if inner.Some? then this else TouchFailure().(outer := None).Goto(i, Idle)
      case Returning => Goto(i, Using(tunnel))
      case Using(t) => Goto(i, if t.None? then Ended else if c.ok then Idle else WantInvalidate(t, false))
      case Closing => this.(stopped := true).Goto(i, WantInvalidate(None, true))
      case WantInvalidate(t, last) => if inner.Some? then this else Invalidate(i, t, last, !c.ok)
      case Invalidating(last) => this.(tunnel := None, inner := None).Goto(i, if last then Ended else Idle)
      case Ended => this
    }

    function Act(a: Action): State {
      match a
      case Tick(elapsed) => this.(now := now + elapsed)
      case Step(i, c) => if i < |pcs| then Advance(i, c) else this
    }

    function Run(actions: seq<Action>): State
      decreases |actions|
    {
      if actions == [] then this else Act(actions[0]).Run(actions[1..])
    }

    // ---- the invariant

    ghost predicate LocksOk() {
      && (forall i :: 0 <= i < |pcs| ==> (pcs[i].HoldsOuter() <==> outer == Some(i)))
      && (forall i :: 0 <= i < |pcs| ==> (pcs[i].Invalidating? <==> inner == Some(i)))
      && (outer.Some? ==> outer.value < |pcs|) && (inner.Some? ==> inner.value < |pcs|)
    }

    /** The current tunnel is the newest; each other one was closed once, not counting calls that threw. */
    ghost predicate TunnelsOk() {
      && (tunnel.Some? ==> tunnel.value == |uses| - 1)
      && (inner.Some? ==> tunnel.Some?)
      && (forall t :: 0 <= t < |uses| ==>
            uses[t].closes == uses[t].throws + if tunnel == Some(t) && inner.None? then 0 else 1)
      && (forall t :: 0 <= t < |uses| ==> uses[t].connects <= 1)
    }

    /** The thread that holds the outer lock is the only one to open and to connect. */
    ghost predicate OpenerOk() {
      forall i :: 0 <= i < |pcs| ==>
        match pcs[i]
        case Waiting => tunnel.None? && !first
        case WantInner => first <==> uses == []
        case Opened => uses != [] && uses[|uses| - 1].connects == 0
        case Connecting(t) => !first && uses != [] && (t.Some? ==> t.value == |uses| - 1)
        case Failing => !first && uses != []
        case _ => true
    }

    ghost predicate FirstOk() {
      && (!first ==> uses != [])
      && (outer.None? ==> (first <==> uses == []))
    }

    /** Without a tunnel, everything that ever happened was over by the last failure. */
    ghost predicate LogOk() {
      && (uses == [] ==> log == [])
      && (log != [] ==> forall e :: e in log ==> e.time <= now)
      && (forall e :: e in log && (e.Failure? || tunnel.None? || inner.Some?) ==> e.time <= lastFailure)
      && Spaced(log)
    }

    ghost predicate Inv() { LocksOk() && TunnelsOk() && OpenerOk() && FirstOk() && LogOk() }
  }

  /** Each opening comes at least the delay after every earlier failure and every earlier opening. */
  ghost predicate Spaced(log: seq<Entry>) {
    forall i, j :: 0 <= i < j < |log| && log[j].Open? ==> log[i].time + DELAY_BETWEEN_ATTEMPTS_MS <= log[j].time
  }

  // ---- what each step keeps

  /** A lock changes hands between one thread and nobody. */
  predicate LockMove(before: Option<nat>, after: Option<nat>, i: nat, held: bool) {
    && (if held then after == Some(i) else after != Some(i))
    && (after == before || (before in {None, Some(i)} && after in {None, Some(i)}))
  }

  lemma LocksStep(s: State, s': State, i: nat)
    requires s.LocksOk() && i < |s.pcs| && |s'.pcs| == |s.pcs| && s'.pcs == s.pcs[i := s'.pcs[i]]
    requires LockMove(s.outer, s'.outer, i, s'.pcs[i].HoldsOuter())
    requires LockMove(s.inner, s'.inner, i, s'.pcs[i].Invalidating?)
    ensures s'.LocksOk()
  {}

  lemma LocksAt(s: State, i: nat)
    requires s.LocksOk() && i < |s.pcs|
    ensures s.pcs[i].HoldsOuter() <==> s.outer == Some(i)
    ensures s.pcs[i].Invalidating? <==> s.inner == Some(i)
  {}

  lemma SpacedSnoc(log: seq<Entry>, e: Entry)
    requires Spaced(log)
    requires e.Open? ==> forall d :: d in log ==> d.time + DELAY_BETWEEN_ATTEMPTS_MS <= e.time
    ensures Spaced(log + [e])
  {}

  lemma TouchKeepsLog(s: State)
    requires s.LogOk() && s.uses != []
    ensures s.TouchFailure().LogOk()
    ensures forall e :: e in s.TouchFailure().log ==> e.time <= s.now
  {
    SpacedSnoc(s.log, Failure(s.now));
  }

  lemma WaitOrOpenKeeps(s: State, i: nat, later: nat)
    requires s.Inv() && i < |s.pcs| && (s.pcs[i].WantInner? || s.pcs[i].Waiting?)
    requires s.inner.None? && s.tunnel.None?
    ensures s.WaitOrOpen(i, later).Inv()
  {
    var s' := s.WaitOrOpen(i, later);
    assert s'.LocksOk();
    assert s'.TunnelsOk();
    if s'.pcs[i].Opened? {
      SpacedSnoc(s.log, Open(s.now + later));
    }
  }

  lemma InvalidateKeepsTunnels(s: State, i: nat, arg: Option<nat>, last: bool, throws: bool)
    requires s.TunnelsOk() && i < |s.pcs| && s.inner.None?
    ensures s.Invalidate(i, arg, last, throws).TunnelsOk()
  {}

  lemma InvalidateKeepsLocks(s: State, i: nat, arg: Option<nat>, last: bool, throws: bool)
    requires s.LocksOk() && i < |s.pcs| && s.pcs[i].WantInvalidate? && s.inner.None?
    ensures s.Invalidate(i, arg, last, throws).LocksOk()
  {
    LocksAt(s, i);
    hide State.LocksOk;
    LocksStep(s, s.Invalidate(i, arg, last, throws), i);
  }

  lemma InvalidateKeepsOpener(s: State, i: nat, arg: Option<nat>, last: bool, throws: bool)
    requires s.OpenerOk() && i < |s.pcs| && s.pcs[i].WantInvalidate? && s.inner.None?
    ensures s.Invalidate(i, arg, last, throws).OpenerOk()
  {}

  lemma InvalidateKeepsLog(s: State, i: nat, arg: Option<nat>, last: bool, throws: bool)
    requires s.FirstOk() && s.LogOk() && i < |s.pcs| && s.inner.None?
    ensures s.Invalidate(i, arg, last, throws).FirstOk() && s.Invalidate(i, arg, last, throws).LogOk()
  {
    hide Spaced;
    if s.uses != [] {
      TouchKeepsLog(s);
    }
  }

  lemma InvalidateKeeps(s: State, i: nat, arg: Option<nat>, last: bool, throws: bool)
    requires s.Inv() && i < |s.pcs| && s.pcs[i].WantInvalidate? && s.inner.None?
    ensures s.Invalidate(i, arg, last, throws).Inv()
  {
    hide State.TunnelsOk, State.LocksOk, State.OpenerOk, State.LogOk, State.FirstOk;
    InvalidateKeepsTunnels(s, i, arg, last, throws);
    InvalidateKeepsLocks(s, i, arg, last, throws);
    InvalidateKeepsOpener(s, i, arg, last, throws);
    InvalidateKeepsLog(s, i, arg, last, throws);
  }

  lemma FinishKeeps(s: State, i: nat)
    requires s.Inv() && i < |s.pcs| && s.pcs[i].Invalidating?
    ensures s.Advance(i, Choice(true, 0, false)).Inv()
  {}

  lemma FailKeeps(s: State, i: nat)
    requires s.Inv() && i < |s.pcs| && s.pcs[i].Failing? && s.inner.None?
    ensures s.TouchFailure().(outer := None).Goto(i, Idle).Inv()
  {
    TouchKeepsLog(s);
  }

  /** A thread moves on without locks. */
  lemma NeutralKeeps(s: State, i: nat, pc: Pc, stopped: bool)
    requires s.Inv() && i < |s.pcs| && s.pcs[i].Neutral() && pc.Neutral()
    ensures s.Goto(i, pc).(stopped := stopped).Inv()
  {
    var s' := s.Goto(i, pc).(stopped := stopped);
    LocksAt(s, i);
    NeutralKeepsOpener(s, i, pc);
    assert s'.TunnelsOk() && s'.FirstOk() && s'.LogOk();
    hide State.LocksOk, State.TunnelsOk, State.OpenerOk, State.FirstOk, State.LogOk;
    LocksStep(s, s', i);
  }

  lemma NeutralKeepsOpener(s: State, i: nat, pc: Pc)
    requires s.OpenerOk() && i < |s.pcs| && pc.Neutral()
    ensures forall stopped :: s.Goto(i, pc).(stopped := stopped).OpenerOk()
  {}

  lemma AcquireKeeps(s: State, i: nat)
    requires s.Inv() && i < |s.pcs| && s.pcs[i].Neutral() && s.outer.None?
    ensures s.(outer := Some(i)).Goto(i, WantInner).Inv()
  {}

  lemma ReleaseKeeps(s: State, i: nat, pc: Pc)
    requires s.Inv() && i < |s.pcs| && s.pcs[i].HoldsOuter() && !s.pcs[i].Opened? && pc.Neutral()
    ensures s.(outer := None).Goto(i, pc).Inv()
  {}

  lemma ConnectKeeps(s: State, i: nat, c: Choice)
    requires s.Inv() && i < |s.pcs| && s.pcs[i].Opened?
    ensures s.Advance(i, c).Inv()
  {
    hide State.WaitOrOpen, State.Invalidate, Spaced;
  }

  lemma FailToConnectKeeps(s: State, i: nat)
    requires s.Inv() && i < |s.pcs| && s.pcs[i].Connecting?
    ensures s.Goto(i, Failing).Inv()
  {}

  lemma AdvanceKeeps(s: State, i: nat, c: Choice)
    requires s.Inv() && i < |s.pcs|
    ensures s.Advance(i, c).Inv()
  {
    hide State.Inv, State.WaitOrOpen, State.Invalidate, State.TouchFailure;
    match s.pcs[i]
    case Idle => NeutralKeeps(s, i, if s.stopped then Ended else WantOuter, s.stopped);
    case WantOuter => if s.outer.None? { AcquireKeeps(s, i); }
    case WantInner =>
      if s.inner.None? {
        if s.tunnel.Some? { ReleaseKeeps(s, i, Using(s.tunnel)); } else { WaitOrOpenKeeps(s, i, c.later); }
      }
    case Waiting =>
      if s.inner.None? {
        if c.interrupted {
          ReleaseKeeps(s, i, Idle);
        } else {
          WaitingHasNoTunnel(s, i);
          WaitOrOpenKeeps(s, i, c.later);
        }
      }
    case Opened => ConnectKeeps(s, i, c);
    case Connecting(t) =>
      if t.None? { ReleaseKeeps(s, i, Ended); }
      else if c.ok { ReleaseKeeps(s, i, Returning); }
      else { FailToConnectKeeps(s, i); }
    case Failing => if s.inner.None? { FailKeeps(s, i); }
    case Returning => NeutralKeeps(s, i, Using(s.tunnel), s.stopped);
    case Using(t) =>
      NeutralKeeps(s, i, if t.None? then Ended else if c.ok then Idle else WantInvalidate(t, false), s.stopped);
    case Closing => NeutralKeeps(s, i, WantInvalidate(None, true), true);
    case WantInvalidate(arg, last) => if s.inner.None? { InvalidateKeeps(s, i, arg, last, !c.ok); }
    case Invalidating(_) => FinishKeeps(s, i);
    case Ended =>
  }

  /** What the source notes: nobody else can have opened a tunnel during the wait. */
  lemma WaitingHasNoTunnel(s: State, i: nat)
    requires s.Inv() && i < |s.pcs| && s.pcs[i].Waiting?
    ensures s.tunnel.None? && !s.first
  {}

  lemma TickKeeps(s: State, elapsed: nat)
    requires s.Inv()
    ensures s.Act(Tick(elapsed)).Inv()
  {}

  lemma {:induction false} RunKeeps(s: State, actions: seq<Action>)
    requires s.Inv()
    ensures s.Run(actions).Inv()
    decreases |actions|
  {
    if actions != [] {
      match actions[0] {
        case Tick(elapsed) => TickKeeps(s, elapsed);
        case Step(i, c) => if i < |s.pcs| { AdvanceKeeps(s, i, c); }
      }
      RunKeeps(s.Act(actions[0]), actions[1..]);
    }
  }

  // ---- what it means

  /** Before anything happened: threads that send or receive, and threads that close the provider. */
  ghost predicate Fresh(s: State) {
    && (forall i :: 0 <= i < |s.pcs| ==> s.pcs[i].Idle? || s.pcs[i].Closing?)
    && s.outer.None? && s.inner.None? && s.tunnel.None? && s.first && s.uses == [] && s.log == []
  }

  /**
   Over every interleaving: one connection attempt at a time and at most one a tunnel;
   a tunnel is closed successfully at most once, and exactly once when another has replaced it;
   an opening comes at least the delay after every failure recorded and every tunnel opened before.
   */
  lemma ProviderIsSafe(s: State, actions: seq<Action>)
    requires Fresh(s)
    ensures var s' := s.Run(actions);
      && (forall i, j :: 0 <= i < j < |s'.pcs| ==> !(s'.pcs[i].Connecting? && s'.pcs[j].Connecting?))
      && (forall t :: 0 <= t < |s'.uses| ==>
            && s'.uses[t].connects <= 1
            && s'.uses[t].closes - s'.uses[t].throws <= 1
            && (t < |s'.uses| - 1 ==> s'.uses[t].closes - s'.uses[t].throws == 1))
      && Spaced(s'.log)
  {
    RunKeeps(s, actions);
  }

  /** An invalidation closes the tunnel it was called for or, from close(), the current one; never a newer one. */
  lemma StaleInvalidationIsHarmless(s: State, i: nat, c: Choice)
    requires s.Inv() && i < |s.pcs|
    ensures var s' := s.Advance(i, c);
      forall t :: 0 <= t < |s.uses| && s'.uses[t].closes != s.uses[t].closes ==>
        && s.pcs[i].WantInvalidate? && s.pcs[i].tunnel in {None, Some(t)} && s.tunnel == Some(t)
        && t == |s.uses| - 1 && s'.uses[t].closes == s.uses[t].closes + 1
  {
    hide State.OpenerOk, State.LocksOk, State.FirstOk, State.LogOk;
  }

  const GOES_ON: Choice := Choice(true, 0, false)

  lemma {:induction false} RunAppend(s: State, a: seq<Action>, b: seq<Action>)
    ensures s.Run(a + b) == s.Run(a).Run(b)
    decreases |a|
  {
    if a == [] {
      assert a + b == b;
    } else {
      assert (a + b)[1..] == a[1..] + b;
      RunAppend(s.Act(a[0]), a[1..], b);
    }
  }

  // ---- what a step leaves behind

  /** A connection that fails is recorded when the thread gives up its lock, and an invalidation when it closes. */
  lemma FailuresAreRecorded(s: State, i: nat, c: Choice)
    requires s.Inv() && i < |s.pcs|
    ensures s.pcs[i].Connecting? && s.pcs[i].tunnel.Some? ==>
      s.Advance(i, c).pcs[i] == (if c.ok then Returning else Failing)
    ensures s.pcs[i].Failing? && s.inner.None? ==>
      && s.Advance(i, c).lastFailure == s.now && s.Advance(i, c).log == s.log + [Failure(s.now)]
      && s.Advance(i, c).pcs[i] == Idle && s.Advance(i, c).outer == None
    ensures s.pcs[i].WantInvalidate? && s.inner.None? && s.tunnel.Some?
            && s.pcs[i].tunnel in {None, s.tunnel} ==>
      && s.Advance(i, c).lastFailure == s.now && s.Advance(i, c).log == s.log + [Failure(s.now)]
      && s.Advance(i, c).uses[s.tunnel.value].closes == s.uses[s.tunnel.value].closes + 1
      && s.Advance(i, c).pcs[i] == (if c.ok then Invalidating(s.pcs[i].last) else Ended)
      && s.Advance(i, c).tunnel == s.tunnel && s.Advance(i, c).inner == (if c.ok then Some(i) else None)
    ensures s.pcs[i].WantInvalidate? && s.inner.None?
            && (s.tunnel.None? || s.pcs[i].tunnel !in {None, s.tunnel}) ==>
      s.Advance(i, c) == s.(pcs := s.pcs[i := if s.pcs[i].last then Ended else Idle])
  {
    hide State.LocksOk, State.OpenerOk, State.FirstOk, State.LogOk;
  }

  /** A thread without trouble gets the current tunnel, or one that it opened and connected itself. */
  lemma LoneThreadConnects(s: State, i: nat)
    requires s.Inv() && i < |s.pcs| && s.pcs[i].WantInner? && s.inner.None?
    ensures s.tunnel.Some? ==> s.Advance(i, GOES_ON).pcs[i] == Using(s.tunnel)
    ensures s.tunnel.None? && (s.first || s.lastFailure + 5000 <= s.now) ==>
      var d := s.Advance(i, GOES_ON).Advance(i, GOES_ON).Advance(i, GOES_ON).Advance(i, GOES_ON);
      && d.pcs[i] == Using(Some(|s.uses|)) && d.tunnel == Some(|s.uses|) && d.outer == None
      && |d.uses| == |s.uses| + 1 && d.uses[|s.uses|] == Use(1, 0, 0) && d.log == s.log + [Open(s.now)]
    ensures s.tunnel.None? && !s.first && s.now < s.lastFailure + 5000 ==>
      s.Advance(i, GOES_ON) == s.(pcs := s.pcs[i := Waiting])
  {
    hide State.Invalidate, State.LogOk;
    if s.tunnel.None? && (s.first || s.lastFailure + 5000 <= s.now) {
      var a := s.Advance(i, GOES_ON);
      assert a.pcs[i].Opened? && a.tunnel == Some(|s.uses|);
      var b := a.Advance(i, GOES_ON);
      assert b.pcs[i] == Connecting(Some(|s.uses|));
      var d := b.Advance(i, GOES_ON);
      assert d.pcs[i].Returning?;
    }
  }

  /** Threads loop until the provider is stopped, and give up on a tunnel that failed them. */
  lemma ThreadsLoop(s: State, i: nat, c: Choice)
    requires i < |s.pcs|
    ensures var d := s.Advance(i, c);
      match s.pcs[i]
      case Idle => d == s.(pcs := s.pcs[i := if s.stopped then Ended else WantOuter])
      case Closing => d == s.(pcs := s.pcs[i := WantInvalidate(None, true)], stopped := true)
      case Using(t) =>
        d == s.(pcs := s.pcs[i := if t.None? then Ended else if c.ok then Idle else WantInvalidate(t, false)])
      case Invalidating(last) =>
        d == s.(pcs := s.pcs[i := if last then Ended else Idle], tunnel := None, inner := None)
      case _ => true
  {}

  // ---- opening after close

  /** On its way to a new tunnel, past the look at `stopped`. */
  predicate MayOpen(pc: Pc) { pc.WantOuter? || pc.WantInner? || pc.Waiting? }

  ghost predicate SomeMayOpen(s: State) { exists i :: 0 <= i < |s.pcs| && MayOpen(s.pcs[i]) }

  lemma StepStaysShut(s: State, a: Action)
    requires s.stopped && !SomeMayOpen(s)
    ensures s.Act(a).stopped && !SomeMayOpen(s.Act(a)) && |s.Act(a).uses| == |s.uses|
  {
    if a.Step? && a.thread < |s.pcs| {
      assert !MayOpen(s.pcs[a.thread]);
      AdvanceStaysShut(s, a.thread, a.choice);
      hide State.Advance, MayOpen;
    }
  }

  lemma AdvanceStaysShut(s: State, i: nat, c: Choice)
    requires s.stopped && i < |s.pcs| && !MayOpen(s.pcs[i])
    ensures var s' := s.Advance(i, c);
      && s'.stopped && |s'.uses| == |s.uses|
      && |s'.pcs| == |s.pcs| && s'.pcs == s.pcs[i := s'.pcs[i]] && !MayOpen(s'.pcs[i])
  {
    hide State.WaitOrOpen, State.Invalidate;
    if s.pcs[i].WantInvalidate? {
      InvalidateStaysShut(s, i, s.pcs[i].tunnel, s.pcs[i].last, !c.ok);
    }
  }

  lemma InvalidateStaysShut(s: State, i: nat, arg: Option<nat>, last: bool, throws: bool)
    requires s.stopped && i < |s.pcs|
    ensures var s' := s.Invalidate(i, arg, last, throws);
      && s'.stopped && |s'.uses| == |s.uses|
      && |s'.pcs| == |s.pcs| && s'.pcs == s.pcs[i := s'.pcs[i]] && !MayOpen(s'.pcs[i])
  {}

  lemma {:induction false} RunStaysShut(s: State, actions: seq<Action>)
    requires s.stopped && !SomeMayOpen(s)
    ensures |s.Run(actions).uses| == |s.uses|
    decreases |actions|
  {
    if actions != [] {
      StepStaysShut(s, actions[0]);
      RunStaysShut(s.Act(actions[0]), actions[1..]);
    }
  }

  /** A thread that holds the outer lock waits for its slot and opens. */
  lemma HolderOpens(s: State, i: nat) returns (actions: seq<Action>)
    requires i < |s.pcs| && (s.pcs[i].WantInner? || s.pcs[i].Waiting?) && s.tunnel.None? && s.inner.None?
    ensures |s.Run(actions).uses| > |s.uses|
  {
    var late := s.lastFailure + DELAY_BETWEEN_ATTEMPTS_MS - s.now;
    actions := [Tick(if late > 0 then late else 0), Step(i, GOES_ON)];
    TwoSteps(s, actions);
  }

  lemma QueuedOpens(s: State, i: nat) returns (actions: seq<Action>)
    requires i < |s.pcs| && s.pcs[i].WantOuter? && s.outer.None? && s.tunnel.None? && s.inner.None?
    ensures |s.Run(actions).uses| > |s.uses|
  {
    var entered := s.Act(Step(i, GOES_ON));
    assert entered.pcs[i].WantInner?;
    actions := HolderOpens(entered, i);
    RunAppend(s, [Step(i, GOES_ON)], actions);
    OneStep(s, Step(i, GOES_ON));
    actions := [Step(i, GOES_ON)] + actions;
  }

  lemma OneStep(s: State, a: Action)
    ensures s.Run([a]) == s.Act(a)
  {
    assert [a][1..] == [];
    assert s.Act(a).Run([]) == s.Act(a);
  }

  lemma TwoSteps(s: State, actions: seq<Action>)
    requires |actions| == 2
    ensures s.Run(actions) == s.Act(actions[0]).Act(actions[1])
  {
    OneStep(s.Act(actions[0]), actions[1]);
    assert actions[1..] == [actions[1]];
  }

  const GIVES_UP: Choice := Choice(false, 0, false)

  /** Without a tunnel, whoever holds the outer lock in vain gives it back. */
  lemma HolderLeaves(s: State, k: nat) returns (actions: seq<Action>)
    requires k < |s.pcs| && (s.pcs[k].Opened? || s.pcs[k].Connecting? || s.pcs[k].Failing?)
    requires s.tunnel.None? && s.inner.None?
    ensures var s' := s.Run(actions);
      && s'.outer.None? && s'.tunnel.None? && s'.inner.None? && |s'.uses| == |s.uses|
      && |s'.pcs| == |s.pcs| && forall j :: 0 <= j < |s.pcs| && j != k ==> s'.pcs[j] == s.pcs[j]
  {
    var step := Step(k, GIVES_UP);
    if s.pcs[k].Failing? || s.pcs[k] == Connecting(None) {
      actions := [step];
      OneStep(s, step);
    } else {
      actions := [step, step];
      TwoSteps(s, actions);
    }
  }

  lemma StillOpens(s: State, i: nat) returns (actions: seq<Action>)
    requires s.Inv() && s.tunnel.None? && i < |s.pcs| && MayOpen(s.pcs[i])
    ensures |s.Run(actions).uses| > |s.uses|
  {
    assert s.inner.None?;
    if !s.pcs[i].WantOuter? {
      actions := HolderOpens(s, i);
    } else if s.outer.None? {
      actions := QueuedOpens(s, i);
    } else {
      var k := s.outer.value;
      LocksAt(s, k);
      LocksAt(s, i);
      hide State.Inv, State.Advance;
      if s.pcs[k].WantInner? || s.pcs[k].Waiting? {
        actions := HolderOpens(s, k);
      } else {
        var leaving := HolderLeaves(s, k);
        var opening := QueuedOpens(s.Run(leaving), i);
        RunAppend(s, leaving, opening);
        actions := leaving + opening;
      }
    }
  }

  ghost predicate Opens(s: State, actions: seq<Action>) { |s.Run(actions).uses| > |s.uses| }

  /** A closed provider without a tunnel opens another one if and only if some thread is already on its way to it. */
  lemma OpensAfterCloseIff(s: State)
    requires s.Inv() && s.stopped && s.tunnel.None?
    ensures (exists actions :: Opens(s, actions)) <==> SomeMayOpen(s)
  {
    if SomeMayOpen(s) {
      var i :| 0 <= i < |s.pcs| && MayOpen(s.pcs[i]);
      var actions := StillOpens(s, i);
      assert Opens(s, actions);
    } else {
      forall actions
        ensures !Opens(s, actions)
      {
        RunStaysShut(s, actions);
      }
    }
  }

  // ---- a tunnel that goes before it is connected

  predicate NoStepOf(i: nat, actions: seq<Action>) { forall a :: a in actions ==> !(a.Step? && a.thread == i) }

  /** Able to invalidate tunnel `t` from here, without the outer lock. */
  predicate CanDrop(pc: Pc, t: nat) {
    match pc
    case Closing => true
    case Returning => true
    case Using(u) => u == Some(t)
    case WantInvalidate(arg, _) => arg == None || arg == Some(t)
    case Invalidating(_) => true
    case _ => false
  }

  ghost predicate OtherCanDrop(s: State, i: nat, t: nat) {
    exists j :: 0 <= j < |s.pcs| && j != i && CanDrop(s.pcs[j], t)
  }

  /** Thread `i` has opened tunnel `t`, and nobody can take it away. */
  ghost predicate Calm(s: State, i: nat, t: nat) {
    && i < |s.pcs| && s.pcs[i].Opened? && s.tunnel == Some(t) && s.outer == Some(i)
    && forall j :: 0 <= j < |s.pcs| && j != i ==> !s.pcs[j].HoldsOuter() && !CanDrop(s.pcs[j], t)
  }

  lemma StepKeepsCalm(s: State, i: nat, t: nat, a: Action)
    requires Calm(s, i, t) && !(a.Step? && a.thread == i)
    ensures Calm(s.Act(a), i, t)
  {
    hide State.WaitOrOpen;
  }

  lemma {:induction false} RunKeepsCalm(s: State, i: nat, t: nat, actions: seq<Action>)
    requires Calm(s, i, t) && NoStepOf(i, actions)
    ensures Calm(s.Run(actions), i, t)
    decreases |actions|
  {
    if actions != [] {
      assert actions[0] in actions;
      StepKeepsCalm(s, i, t, actions[0]);
      hide Calm;
      assert forall a :: a in actions[1..] ==> a in actions;
      RunKeepsCalm(s.Act(actions[0]), i, t, actions[1..]);
    }
  }

  /** One step of `j` closer to the invalidation of `t`. */
  function Nearer(s: State, j: nat): Action
    requires j < |s.pcs|
  {
    Step(j, if s.pcs[j].Using? then GIVES_UP else GOES_ON)
  }

  function Distance(pc: Pc): nat {
    match pc
    case Returning => 4
    case Using(_) => 3
    case Closing => 3
    case WantInvalidate(_, _) => 2
    case Invalidating(_) => 1
    case _ => 0
  }

  /** With the inner lock free it gets there, and thread `i` does not move. */
  lemma {:induction false} Drops(s: State, i: nat, j: nat, t: nat) returns (actions: seq<Action>)
    requires i < |s.pcs| && j < |s.pcs| && i != j && s.pcs[i].Opened? && CanDrop(s.pcs[j], t)
    requires s.tunnel == Some(t) && t < |s.uses| && (s.pcs[j].Invalidating? || s.inner.None?)
    ensures NoStepOf(i, actions) && s.Run(actions).tunnel.None?
    ensures |s.Run(actions).pcs| == |s.pcs| && s.Run(actions).pcs[i].Opened?
    decreases Distance(s.pcs[j])
  {
    var a := Nearer(s, j);
    var s' := s.Act(a);
    OneStep(s, a);
    if s.pcs[j].Invalidating? {
      actions := [a];
    } else {
      var rest := Drops(s', i, j, t);
      RunAppend(s, [a], rest);
      actions := [a] + rest;
    }
  }

  ghost predicate MeetsNull(s: State, i: nat, actions: seq<Action>) {
    var s' := s.Run(actions).Act(Step(i, GOES_ON));
    NoStepOf(i, actions) && i < |s'.pcs| && s'.pcs[i] == Connecting(None)
  }

  /** The tunnel just opened can be null when it is to be connected if and only if another thread can invalidate it. */
  lemma ConnectsNullIff(s: State, i: nat, t: nat)
    requires s.Inv() && i < |s.pcs| && s.pcs[i].Opened? && s.tunnel == Some(t)
    ensures (exists actions :: MeetsNull(s, i, actions)) <==> OtherCanDrop(s, i, t)
  {
    if OtherCanDrop(s, i, t) {
      var j :| 0 <= j < |s.pcs| && j != i && CanDrop(s.pcs[j], t);
      var k := if s.inner.Some? then s.inner.value else j;
      LocksAt(s, j);
      LocksAt(s, k);
      var actions := Drops(s, i, k, t);
      assert MeetsNull(s, i, actions);
    } else {
      assert Calm(s, i, t) by {
        forall j | 0 <= j < |s.pcs| && j != i
          ensures !s.pcs[j].HoldsOuter() && !CanDrop(s.pcs[j], t)
        {
          LocksAt(s, j);
          LocksAt(s, i);
        }
        LocksAt(s, i);
      }
      forall actions
        ensures !MeetsNull(s, i, actions)
      {
        if NoStepOf(i, actions) {
          RunKeepsCalm(s, i, t, actions);
        }
      }
    }
  }

  /** Two threads that only send and receive. */
  function Senders(): State {
    State([Idle, Idle], None, None, None, true, 0, false, 0, [], [])
  }

  lemma Then(s0: State, actions: seq<Action>, a: Action) returns (longer: seq<Action>, s: State)
    ensures s0.Run(longer) == s && s == s0.Run(actions).Act(a)
  {
    RunAppend(s0, actions, [a]);
    OneStep(s0.Run(actions), a);
    longer, s := actions + [a], s0.Run(actions).Act(a);
  }

  /** The first sender opens tunnel 0 and connects it, but has not yet read its result. */
  lemma FirstConnects() returns (actions: seq<Action>)
    ensures Senders().Run(actions)
      == State([Returning, Idle], None, None, Some(0), false, 0, false, 0, [Use(1, 0, 0)], [Open(0)])
  {
    actions := [];
    var s;
    actions, s := Then(Senders(), actions, Step(0, GOES_ON));
    actions, s := Then(Senders(), actions, Step(0, GOES_ON));
    assert s.pcs == [WantInner, Idle] && s.outer == Some(0);
    actions, s := Then(Senders(), actions, Step(0, GOES_ON));
    assert s.pcs == [Opened, Idle] && s.tunnel == Some(0);
    actions, s := Then(Senders(), actions, Step(0, GOES_ON));
    actions, s := Then(Senders(), actions, Step(0, GOES_ON));
  }

  /** The second one finds tunnel 0 broken, and invalidates it. */
  lemma SecondInvalidates() returns (actions: seq<Action>)
    ensures Senders().Run(actions)
      == State([Returning, Idle], None, None, None, false, 0, false, 0, [Use(1, 1, 0)], [Open(0), Failure(0)])
  {
    actions := FirstConnects();
    var s;
    actions, s := Then(Senders(), actions, Step(1, GOES_ON));
    actions, s := Then(Senders(), actions, Step(1, GOES_ON));
    actions, s := Then(Senders(), actions, Step(1, GOES_ON));
    assert s.pcs == [Returning, Using(Some(0))] && s.outer == None;
    actions, s := Then(Senders(), actions, Step(1, GIVES_UP));
    actions, s := Then(Senders(), actions, Step(1, GOES_ON));
    assert s.pcs == [Returning, Invalidating(false)] && s.inner == Some(1);
    actions, s := Then(Senders(), actions, Step(1, GOES_ON));
  }

  /** It waits for its slot, and opens tunnel 1. */
  lemma SecondOpens() returns (actions: seq<Action>)
    ensures var s := Senders().Run(actions); s.pcs == [Returning, Opened] && s.tunnel == Some(1)
  {
    actions := SecondInvalidates();
    var s;
    actions, s := Then(Senders(), actions, Step(1, GOES_ON));
    actions, s := Then(Senders(), actions, Step(1, GOES_ON));
    actions, s := Then(Senders(), actions, Tick(DELAY_BETWEEN_ATTEMPTS_MS));
    assert s.pcs == [Returning, WantInner] && s.now == 5000 && s.lastFailure == 0;
    assert s.inner == None && s.tunnel == None;
    actions, s := Then(Senders(), actions, Step(1, GOES_ON));
  }

  /** No close() is needed: a sender slow to read its result invalidates the tunnel that the other has just opened. */
  lemma SendersMeetNull() returns (before: seq<Action>, after: seq<Action>)
    ensures MeetsNull(Senders().Run(before), 1, after)
  {
    before := SecondOpens();
    var s := Senders().Run(before);
    RunKeeps(Senders(), before);
    assert CanDrop(s.pcs[0], 1);
    ConnectsNullIff(s, 1, 1);
    after :| MeetsNull(s, 1, after);
  }
}
