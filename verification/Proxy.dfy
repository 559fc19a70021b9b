/** The accept, handle and drain protocol of the connection server (proxy/proxy.go), as a state machine
    whose steps are the points where another goroutine may run in between. */
module Proxy {
  import opened Options
  import opened Semaphores

  datatype LoopPhase =
    | Accepting       // in Accept
    | Busy(conn: nat) // owns a connection that no handler has yet
    | Returning       // the accept loop is over, its wait group not yet told
    | Ended

  datatype ConnPhase =
    | Accepted // before Acquire
    | Refused  // no slot was free
    | Dropped  // closed for overload
    | Slotted  // a slot is taken, the wait group not yet told
    | Counted  // before the handler goroutine starts
    | Running
    | Returned // the handler is over
    | Closed
    | Released // its slot is back
    | Finished

  datatype Conn = Conn(owner: nat, phase: ConnPhase)

  datatype DrainPhase = NotDraining | AwaitLoops | AwaitConns | Drained

  datatype State = State(
    limit: Option<nat>,
    loops: map<nat, LoopPhase>,
    closed: set<nat>, // accept loops whose listener is closed
    conns: map<nat, Conn>,
    slots: nat,
    acceptWG: int,
    connWG: int,
    drain: DrainPhase)

  datatype Action =
    | Serve(loop: nat)
    | CloseListener(loop: nat)
    | AcceptFails(loop: nat)
    | Accept(loop: nat, conn: nat)
    | AcceptEnds(loop: nat)
    | TryAcquire(loop: nat)
    | DropConn(loop: nat)
    | CountConn(loop: nat)
    | StartHandler(loop: nat)
    | LoopDone(loop: nat)
    | HandlerReturns(conn: nat)
    | CloseConn(conn: nat)
    | ReleaseSlot(conn: nat)
    | ConnDone(conn: nat)
    | StartDrain
    | LoopsAwaited
    | ConnsAwaited

  predicate LoopIs(s: State, l: nat, p: LoopPhase) {
    l in s.loops && s.loops[l] == p
  }

  predicate LoopHolds(s: State, l: nat, p: ConnPhase) {
    l in s.loops && s.loops[l].Busy? && s.loops[l].conn in s.conns && s.conns[s.loops[l].conn].phase == p
  }

  predicate ConnIs(s: State, c: nat, p: ConnPhase) {
    c in s.conns && s.conns[c].phase == p
  }

  /** When an action can happen. `late` allows Serve once a drain has begun. */
  predicate Enabled(s: State, a: Action, late: bool) {
    match a
    case Serve(l) => l !in s.loops && (late || s.drain.NotDraining?)
    case CloseListener(l) => l in s.loops
    case AcceptFails(l) => LoopIs(s, l, Accepting) && l !in s.closed
    case Accept(l, c) => LoopIs(s, l, Accepting) && l !in s.closed && c !in s.conns
    case AcceptEnds(l) => LoopIs(s, l, Accepting) && l in s.closed
    case TryAcquire(l) => LoopHolds(s, l, Accepted)
    case DropConn(l) => LoopHolds(s, l, Refused)
    case CountConn(l) => LoopHolds(s, l, Slotted)
    case StartHandler(l) => LoopHolds(s, l, Counted)
    case LoopDone(l) => LoopIs(s, l, Returning)
    case HandlerReturns(c) => ConnIs(s, c, Running)
    case CloseConn(c) => ConnIs(s, c, Returned)
    case ReleaseSlot(c) => ConnIs(s, c, Closed)
    case ConnDone(c) => ConnIs(s, c, Released)
    case StartDrain => s.drain.NotDraining?
    case LoopsAwaited => s.drain.AwaitLoops? && s.acceptWG == 0
    case ConnsAwaited => s.drain.AwaitConns? && s.connWG == 0
  }

  function Move(s: State, c: nat, p: ConnPhase): map<nat, Conn>
    requires c in s.conns
  {
    s.conns[c := s.conns[c].(phase := p)]
  }

  function Apply(s: State, a: Action, late: bool): State
    requires Enabled(s, a, late)
  {
    match a
    case Serve(l) => s.(loops := s.loops[l := Accepting], acceptWG := s.acceptWG + 1)
    case CloseListener(l) => s.(closed := s.closed + {l})
    case AcceptFails(l) => s
    case Accept(l, c) => s.(loops := s.loops[l := Busy(c)], conns := s.conns[c := Conn(l, Accepted)])
    case AcceptEnds(l) => s.(loops := s.loops[l := Returning])
    case TryAcquire(l) =>
      var ok := CanAcquire(s.limit, s.slots);
      s.(conns := Move(s, s.loops[l].conn, if ok then Slotted else Refused), slots := AfterAcquire(s.limit, s.slots))
    case DropConn(l) => s.(conns := Move(s, s.loops[l].conn, Dropped), loops := s.loops[l := Accepting])
    case CountConn(l) => s.(conns := Move(s, s.loops[l].conn, Counted), connWG := s.connWG + 1)
    case StartHandler(l) => s.(conns := Move(s, s.loops[l].conn, Running), loops := s.loops[l := Accepting])
    case LoopDone(l) => s.(loops := s.loops[l := Ended], acceptWG := s.acceptWG - 1)
    case HandlerReturns(c) => s.(conns := Move(s, c, Returned))
    case CloseConn(c) => s.(conns := Move(s, c, Closed))
    case ReleaseSlot(c) => s.(conns := Move(s, c, Released), slots := AfterRelease(s.limit, s.slots))
    case ConnDone(c) => s.(conns := Move(s, c, Finished), connWG := s.connWG - 1)
    case StartDrain => s.(drain := AwaitLoops)
    case LoopsAwaited => s.(drain := AwaitConns)
    case ConnsAwaited => s.(drain := Drained)
  }

  function NewServer(maxConcurrent: int): State {
    State(if maxConcurrent > 0 then Some(maxConcurrent) else None, map[], {}, map[], 0, 0, 0, NotDraining)
  }

  /** The states of a run of `actions` from a new server. */
  ghost predicate IsRun(maxConcurrent: int, actions: seq<Action>, states: seq<State>, late: bool) {
    && |states| == |actions| + 1 && states[0] == NewServer(maxConcurrent)
    && forall i :: 0 <= i < |actions| ==>
         Enabled(states[i], actions[i], late) && states[i+1] == Apply(states[i], actions[i], late)
  }

  // ------------------------------------------------------------------- invariants

  predicate EarlyPhase(p: ConnPhase) {
    p.Accepted? || p.Refused? || p.Slotted? || p.Counted?
  }

  predicate HoldsSlot(p: ConnPhase) {
    p.Slotted? || p.Counted? || p.Running? || p.Returned? || p.Closed?
  }

  predicate InWaitGroup(p: ConnPhase) {
    p.Counted? || p.Running? || p.Returned? || p.Closed? || p.Released?
  }

  function SlotHolders(conns: map<nat, Conn>): set<nat> {
    set c | c in conns && HoldsSlot(conns[c].phase)
  }

  function Waited(conns: map<nat, Conn>): set<nat> {
    set c | c in conns && InWaitGroup(conns[c].phase)
  }

  function LiveLoops(loops: map<nat, LoopPhase>): set<nat> {
    set l | l in loops && !loops[l].Ended?
  }

  /** Slots are exactly the acquired and unreleased connections, never more than the limit, and the two
      wait groups count what they should. */
  ghost predicate Counts(s: State) {
    && (s.limit.Some? ==> s.slots == |SlotHolders(s.conns)| <= s.limit.value)
    && (s.limit.None? ==> s.slots == 0)
    && s.connWG == |Waited(s.conns)|
    && s.acceptWG == |LiveLoops(s.loops)|
  }

  ghost predicate EarlyAreHeld(s: State) {
    forall c :: c in s.conns && EarlyPhase(s.conns[c].phase) ==> LoopIs(s, s.conns[c].owner, Busy(c))
  }

  ghost predicate BusyHold(s: State) {
    forall l :: l in s.loops && s.loops[l].Busy? ==>
      var c := s.loops[l].conn; c in s.conns && s.conns[c].owner == l && EarlyPhase(s.conns[c].phase)
  }

  /** A connection without a handler belongs to the accept loop that holds it. */
  ghost predicate Owned(s: State) {
    EarlyAreHeld(s) && BusyHold(s)
  }

  ghost predicate AllLoopsEnded(s: State) {
    forall l :: l in s.loops ==> s.loops[l].Ended?
  }

  ghost predicate AllConnsClosed(s: State) {
    forall c :: c in s.conns ==> s.conns[c].phase.Finished? || s.conns[c].phase.Dropped?
  }

  ghost predicate DrainSound(s: State) {
    && (s.drain.AwaitConns? || s.drain.Drained? ==> AllLoopsEnded(s))
    && (s.drain.Drained? ==> AllConnsClosed(s) && s.slots == 0 && s.connWG == 0)
  }

  lemma EmptySet<T>(s: set<T>)
    requires |s| == 0
    ensures s == {}
  {
  }

  lemma ConnUpdated(conns: map<nat, Conn>, c: nat, x: Conn)
    ensures SlotHolders(conns[c := x]) == SlotHolders(conns) - {c} + (if HoldsSlot(x.phase) then {c} else {})
    ensures Waited(conns[c := x]) == Waited(conns) - {c} + (if InWaitGroup(x.phase) then {c} else {})
  {
  }

  lemma LoopUpdated(loops: map<nat, LoopPhase>, l: nat, p: LoopPhase)
    ensures LiveLoops(loops[l := p]) == LiveLoops(loops) - {l} + (if p.Ended? then {} else {l})
  {
  }

  /** The connection that an action moves on. */
  function Moved(s: State, a: Action): Option<nat> {
    match a
    case Accept(_, c) => Some(c)
    case HandlerReturns(c) => Some(c)
    case CloseConn(c) => Some(c)
    case ReleaseSlot(c) => Some(c)
    case ConnDone(c) => Some(c)
    case TryAcquire(l) => if l in s.loops && s.loops[l].Busy? then Some(s.loops[l].conn) else None
    case DropConn(l) => if l in s.loops && s.loops[l].Busy? then Some(s.loops[l].conn) else None
    case CountConn(l) => if l in s.loops && s.loops[l].Busy? then Some(s.loops[l].conn) else None
    case StartHandler(l) => if l in s.loops && s.loops[l].Busy? then Some(s.loops[l].conn) else None
    case _ => None
  }

  lemma MovedOnly(s: State, a: Action, late: bool)
    requires Enabled(s, a, late)
    ensures var t := Apply(s, a, late);
            match Moved(s, a)
            case None => t.conns == s.conns
            case Some(c) => c in t.conns && t.conns == s.conns[c := t.conns[c]]
  {
  }

  ghost predicate Held(s: State, c: nat) {
    c in s.conns && HoldsSlot(s.conns[c].phase)
  }

  ghost predicate InGroup(s: State, c: nat) {
    c in s.conns && InWaitGroup(s.conns[c].phase)
  }

  /** A slot is taken when a connection starts to hold one, and given back when it stops. */
  lemma SlotEffect(s: State, a: Action, late: bool)
    requires Enabled(s, a, late)
    ensures var t := Apply(s, a, late);
            t.limit == s.limit &&
            match Moved(s, a)
            case None => t.slots == s.slots
            case Some(c) =>
              if !Held(s, c) && Held(t, c) then
                CanAcquire(s.limit, s.slots) && t.slots == AfterAcquire(s.limit, s.slots)
              else if Held(s, c) && !Held(t, c) then t.slots == AfterRelease(s.limit, s.slots)
              else t.slots == s.slots
  {
  }

  lemma WaitEffect(s: State, a: Action, late: bool)
    requires Enabled(s, a, late)
    ensures var t := Apply(s, a, late);
            match Moved(s, a)
            case None => t.connWG == s.connWG
            case Some(c) => t.connWG == s.connWG + (if InGroup(t, c) then 1 else 0) - (if InGroup(s, c) then 1 else 0)
  {
  }

  /** Slot counts follow the holders when one connection takes or returns a slot. */
  lemma SlotArithmetic(limit: Option<nat>, slots: nat, holders: set<nat>, after: set<nat>, c: nat, now: nat)
    requires if limit.Some? then slots == |holders| <= limit.value else slots == 0
    requires after - {c} == holders - {c}
    requires if c !in holders && c in after then CanAcquire(limit, slots) && now == AfterAcquire(limit, slots)
             else if c in holders && c !in after then now == AfterRelease(limit, slots)
             else now == slots
    ensures if limit.Some? then now == |after| <= limit.value else now == 0
  {
    SetSizes(holders, c);
    SetSizes(after, c);
  }

  lemma HoldersEffect(s: State, a: Action, late: bool)
    requires Enabled(s, a, late) && Moved(s, a).Some?
    ensures var t, c := Apply(s, a, late), Moved(s, a).value;
            && SlotHolders(t.conns) - {c} == SlotHolders(s.conns) - {c}
            && (c in SlotHolders(s.conns) <==> Held(s, c)) && (c in SlotHolders(t.conns) <==> Held(t, c))
  {
    var t, c := Apply(s, a, late), Moved(s, a).value;
    MovedOnly(s, a, late);
    ConnUpdated(s.conns, c, t.conns[c]);
  }

  lemma SlotCountKept(s: State, a: Action, late: bool)
    requires Counts(s) && Enabled(s, a, late)
    ensures var t := Apply(s, a, late);
            if t.limit.Some? then t.slots == |SlotHolders(t.conns)| <= t.limit.value else t.slots == 0
  {
    var t := Apply(s, a, late);
    SlotEffect(s, a, late);
    if Moved(s, a).Some? {
      HoldersEffect(s, a, late);
      SlotArithmetic(s.limit, s.slots, SlotHolders(s.conns), SlotHolders(t.conns), Moved(s, a).value, t.slots);
    } else {
      MovedOnly(s, a, late);
    }
  }

  lemma WaitCountKept(s: State, a: Action, late: bool)
    requires Counts(s) && Enabled(s, a, late)
    ensures Apply(s, a, late).connWG == |Waited(Apply(s, a, late).conns)|
  {
    var t := Apply(s, a, late);
    MovedOnly(s, a, late);
    WaitEffect(s, a, late);
    if Moved(s, a).Some? {
      var c := Moved(s, a).value;
      ConnUpdated(s.conns, c, t.conns[c]);
      SetSizes(Waited(s.conns), c);
    }
  }

  lemma SetSizes(s: set<nat>, c: nat)
    ensures |s + {c}| == |s| + (if c in s then 0 else 1)
    ensures |s - {c}| == |s| - (if c in s then 1 else 0)
    ensures s - {c} + {c} == s + {c}
    ensures c in s ==> s + {c} == s
    ensures c !in s ==> s - {c} == s
  {
  }

  /** The accept loop whose phase an action may change. */
  function LoopMoved(a: Action): Option<nat> {
    match a
    case Serve(l) => Some(l)
    case Accept(l, _) => Some(l)
    case AcceptEnds(l) => Some(l)
    case DropConn(l) => Some(l)
    case StartHandler(l) => Some(l)
    case LoopDone(l) => Some(l)
    case _ => None
  }

  predicate Live(s: State, l: nat) {
    l in s.loops && !s.loops[l].Ended?
  }

  lemma LoopEffect(s: State, a: Action, late: bool)
    requires Enabled(s, a, late)
    ensures var t := Apply(s, a, late);
            match LoopMoved(a)
            case None => t.loops == s.loops && t.acceptWG == s.acceptWG
            case Some(l) =>
              && l in t.loops && t.loops == s.loops[l := t.loops[l]]
              && t.acceptWG == s.acceptWG + (if Live(t, l) then 1 else 0) - (if Live(s, l) then 1 else 0)
  {
  }

  lemma LoopsKept(s: State, a: Action, late: bool)
    requires Counts(s) && Enabled(s, a, late)
    ensures Apply(s, a, late).acceptWG == |LiveLoops(Apply(s, a, late).loops)|
  {
    var t := Apply(s, a, late);
    LoopEffect(s, a, late);
    if LoopMoved(a).Some? {
      var l := LoopMoved(a).value;
      LoopUpdated(s.loops, l, t.loops[l]);
      SetSizes(LiveLoops(s.loops), l);
    }
  }

  lemma CountsKept(s: State, a: Action, late: bool)
    requires Counts(s) && Enabled(s, a, late)
    ensures Counts(Apply(s, a, late))
  {
    SlotCountKept(s, a, late);
    WaitCountKept(s, a, late);
    LoopsKept(s, a, late);
  }

  lemma EarlyAreHeldKept(s: State, a: Action, late: bool)
    requires Owned(s) && Enabled(s, a, late)
    ensures EarlyAreHeld(Apply(s, a, late))
  {
  }

  lemma BusyHoldKept(s: State, a: Action, late: bool)
    requires Owned(s) && Enabled(s, a, late)
    ensures BusyHold(Apply(s, a, late))
  {
  }

  lemma OwnedKept(s: State, a: Action, late: bool)
    requires Owned(s) && Enabled(s, a, late)
    ensures Owned(Apply(s, a, late))
  {
    EarlyAreHeldKept(s, a, late);
    BusyHoldKept(s, a, late);
  }

  /** A Serve that a drain still waits for, or that comes before it. */
  predicate InTime(s: State, a: Action) {
    a.Serve? ==> s.drain.NotDraining? || s.drain.AwaitLoops?
  }

  lemma DrainSoundKept(s: State, a: Action, late: bool)
    requires Counts(s) && Owned(s) && DrainSound(s) && Enabled(s, a, late) && InTime(s, a)
    ensures DrainSound(Apply(s, a, late))
  {
    match a
    case LoopsAwaited => NoLoopsLeft(s);
    case ConnsAwaited => NoConnsLeft(s);
    case _ =>
  }

  /** Over all interleavings: slots in use equal the acquired and unreleased connections and never
      exceed the limit, and both wait groups are exact, even if Serve is called during a drain. */
  lemma {:induction false} SlotsAreExact(maxConcurrent: int, actions: seq<Action>, states: seq<State>, late: bool,
                                         n: nat)
    requires IsRun(maxConcurrent, actions, states, late) && n < |states|
    ensures Counts(states[n]) && Owned(states[n])
  {
    if n == 0 {
      var s := NewServer(maxConcurrent);
      assert SlotHolders(s.conns) == {} && Waited(s.conns) == {} && LiveLoops(s.loops) == {};
    } else {
      SlotsAreExact(maxConcurrent, actions, states, late, n - 1);
      CountsKept(states[n-1], actions[n-1], late);
      OwnedKept(states[n-1], actions[n-1], late);
    }
  }

  /** If no Serve begins once a drain has begun, a drain that completes finds every accept loop ended,
      every accepted connection closed by the server, and every slot free; and this stays so. */
  lemma {:induction false} DrainIsComplete(maxConcurrent: int, actions: seq<Action>, states: seq<State>, n: nat)
    requires IsRun(maxConcurrent, actions, states, false) && n < |states|
    ensures DrainSound(states[n]) && Promise(states[n])
  {
    if n > 0 {
      DrainIsComplete(maxConcurrent, actions, states, n - 1);
      SlotsAreExact(maxConcurrent, actions, states, false, n - 1);
      DrainSoundKept(states[n-1], actions[n-1], false);
    }
  }

  lemma SoundStepExactly(s: State, a: Action)
    requires Counts(s) && Owned(s) && DrainSound(s) && Enabled(s, a, true)
    ensures DrainSound(Apply(s, a, true)) <==> InTime(s, a)
  {
    if InTime(s, a) {
      DrainSoundKept(s, a, true);
    } else {
      assert LoopIs(Apply(s, a, true), a.loop, Accepting);
    }
  }

  /** The invariant behind the callers' rule holds throughout a run if and only if no Serve comes after the
      drain has stopped waiting for accept loops. It says more than what a completed drain promises. */
  lemma {:induction false} DrainSoundExactly(maxConcurrent: int, actions: seq<Action>, states: seq<State>, n: nat)
    requires IsRun(maxConcurrent, actions, states, true) && n < |states|
    ensures (forall i :: 0 <= i <= n ==> DrainSound(states[i])) <==>
            (forall i :: 0 <= i < n ==> InTime(states[i], actions[i]))
  {
    if n == 0 {
      assert DrainSound(states[0]);
    } else {
      DrainSoundExactly(maxConcurrent, actions, states, n - 1);
      SlotsAreExact(maxConcurrent, actions, states, true, n - 1);
      if DrainSound(states[n-1]) {
        SoundStepExactly(states[n-1], actions[n-1]);
      }
      assert (forall i :: 0 <= i <= n ==> DrainSound(states[i])) ==>
             forall i :: 0 <= i <= n - 1 ==> DrainSound(states[i]);
      assert (forall i :: 0 <= i < n ==> InTime(states[i], actions[i])) ==> InTime(states[n-1], actions[n-1]);
      assert (forall i :: 0 <= i <= n ==> DrainSound(states[i])) ==> DrainSound(states[n-1]) && DrainSound(states[n]);
    }
  }

  /** What a drain promises: when it is complete, every accept loop has ended, every accepted connection is
      closed by the server, and every slot is free. */
  ghost predicate Promise(s: State) {
    s.drain.Drained? ==> AllLoopsEnded(s) && AllConnsClosed(s) && s.slots == 0 && s.connWG == 0
  }

  /** The drain does not complete while an accept loop is alive, and no Serve comes after it. */
  predicate Safe(s: State, a: Action) {
    (a.ConnsAwaited? ==> s.acceptWG == 0) && (a.Serve? ==> !s.drain.Drained?)
  }

  lemma NoLoopsLeft(s: State)
    requires Counts(s)
    ensures s.acceptWG == 0 <==> AllLoopsEnded(s)
  {
    if s.acceptWG == 0 {
      EmptySet(LiveLoops(s.loops));
      forall l | l in s.loops ensures s.loops[l].Ended? {
        assert l !in LiveLoops(s.loops);
      }
    } else {
      assert LiveLoops(s.loops) != {};
      var l :| l in LiveLoops(s.loops);
    }
  }

  lemma NoConnsLeft(s: State)
    requires Counts(s) && Owned(s) && AllLoopsEnded(s) && s.connWG == 0
    ensures AllConnsClosed(s) && s.slots == 0
  {
    EmptySet(Waited(s.conns));
    forall c | c in s.conns ensures s.conns[c].phase.Finished? || s.conns[c].phase.Dropped? {
      assert c !in Waited(s.conns);
      assert EarlyPhase(s.conns[c].phase) ==> LoopIs(s, s.conns[c].owner, Busy(c));
    }
    assert SlotHolders(s.conns) == {};
  }

  lemma PromiseStep(s: State, a: Action)
    requires Counts(s) && Owned(s) && Promise(s) && Enabled(s, a, true)
    ensures Promise(Apply(s, a, true)) <==> Safe(s, a)
  {
    NoLoopsLeft(s);
    if a.ConnsAwaited? {
      if s.acceptWG == 0 {
        NoConnsLeft(s);
      }
    } else if a.Serve? && s.drain.Drained? {
      assert LoopIs(Apply(s, a, true), a.loop, Accepting);
    }
  }

  /** The exact rule, for every run: the promise holds throughout if and only if the drain never completes
      while an accept loop is alive, and no Serve comes after it is complete. */
  lemma {:induction false} PromiseExactly(maxConcurrent: int, actions: seq<Action>, states: seq<State>, n: nat)
    requires IsRun(maxConcurrent, actions, states, true) && n < |states|
    ensures (forall i :: 0 <= i <= n ==> Promise(states[i])) <==>
            (forall i :: 0 <= i < n ==> Safe(states[i], actions[i]))
  {
    if n == 0 {
      assert Promise(states[0]);
    } else {
      PromiseExactly(maxConcurrent, actions, states, n - 1);
      SlotsAreExact(maxConcurrent, actions, states, true, n - 1);
      if Promise(states[n-1]) {
        PromiseStep(states[n-1], actions[n-1]);
      }
      assert (forall i :: 0 <= i <= n ==> Promise(states[i])) ==>
             forall i :: 0 <= i <= n - 1 ==> Promise(states[i]);
      assert (forall i :: 0 <= i < n ==> Safe(states[i], actions[i])) ==> Safe(states[n-1], actions[n-1]);
      assert (forall i :: 0 <= i <= n ==> Promise(states[i])) ==> Promise(states[n-1]) && Promise(states[n]);
    }
  }

  lemma RunSnoc(maxConcurrent: int, actions: seq<Action>, states: seq<State>, a: Action)
    requires IsRun(maxConcurrent, actions, states, true) && Enabled(states[|actions|], a, true)
    ensures IsRun(maxConcurrent, actions + [a], states + [Apply(states[|actions|], a, true)], true)
  {
  }

  /** A state of a server without limit and without connections. */
  function Bare(loops: map<nat, LoopPhase>, closed: set<nat>, live: int, drain: DrainPhase): State {
    State(None, loops, closed, map[], 0, live, 0, drain)
  }

  lemma LateLoopRun() returns (actions: seq<Action>, states: seq<State>)
    ensures IsRun(0, actions, states, true)
    ensures actions == [StartDrain, LoopsAwaited, Serve(0), CloseListener(0)]
    ensures states == [NewServer(0), Bare(map[], {}, 0, AwaitLoops), Bare(map[], {}, 0, AwaitConns),
                       Bare(map[0 := Accepting], {}, 1, AwaitConns), Bare(map[0 := Accepting], {0}, 1, AwaitConns)]
  {
    actions, states := [], [NewServer(0)];
    RunSnoc(0, actions, states, StartDrain);
    actions, states := actions + [StartDrain], states + [Bare(map[], {}, 0, AwaitLoops)];
    RunSnoc(0, actions, states, LoopsAwaited);
    actions, states := actions + [LoopsAwaited], states + [Bare(map[], {}, 0, AwaitConns)];
    RunSnoc(0, actions, states, Serve(0));
    actions, states := actions + [Serve(0)], states + [Bare(map[0 := Accepting], {}, 1, AwaitConns)];
    RunSnoc(0, actions, states, CloseListener(0));
    actions, states := actions + [CloseListener(0)], states + [Bare(map[0 := Accepting], {0}, 1, AwaitConns)];
  }

  lemma LoopEndsFirst(actions: seq<Action>, states: seq<State>) returns (more: seq<Action>, later: seq<State>)
    requires IsRun(0, actions, states, true)
    requires states[|actions|] == Bare(map[0 := Accepting], {0}, 1, AwaitConns)
    ensures IsRun(0, more, later, true) && actions <= more && states <= later
    ensures later[|more|] == Bare(map[0 := Ended], {0}, 0, Drained)
  {
    more, later := actions, states;
    RunSnoc(0, more, later, AcceptEnds(0));
    more, later := more + [AcceptEnds(0)], later + [Bare(map[0 := Returning], {0}, 1, AwaitConns)];
    RunSnoc(0, more, later, LoopDone(0));
    more, later := more + [LoopDone(0)], later + [Bare(map[0 := Ended], {0}, 0, AwaitConns)];
    RunSnoc(0, more, later, ConnsAwaited);
    more, later := more + [ConnsAwaited], later + [Bare(map[0 := Ended], {0}, 0, Drained)];
  }

  /** A Serve that comes late may do no harm: here its loop ends before the drain completes. */
  lemma LateServeInLuck() returns (actions: seq<Action>, states: seq<State>)
    ensures IsRun(0, actions, states, true) && states[|actions|].drain.Drained? && Promise(states[|actions|])
    ensures exists i :: 0 <= i < |actions| && !InTime(states[i], actions[i])
  {
    var first, early := LateLoopRun();
    actions, states := LoopEndsFirst(first, early);
    assert states[2] == early[2] && actions[2] == first[2] && !InTime(early[2], first[2]);
  }

  /** Without that rule it fails: a loop served during the drain outlives it. */
  lemma LateServeBreaksDrain() returns (actions: seq<Action>, states: seq<State>)
    ensures IsRun(0, actions, states, true) && !Promise(states[|states|-1])
  {
    actions := [StartDrain, LoopsAwaited, Serve(0), ConnsAwaited];
    var s0 := NewServer(0);
    var s1 := Apply(s0, StartDrain, true);
    var s2 := Apply(s1, LoopsAwaited, true);
    var s3 := Apply(s2, Serve(0), true);
    var s4 := Apply(s3, ConnsAwaited, true);
    states := [s0, s1, s2, s3, s4];
    assert LoopIs(s4, 0, Accepting);
  }

  // --------------------------------------------------------- the life of a connection

  datatype Stage = Taken | Tried | Dropping | Counting | Starting | HandedBack | Closing | Releasing | Done

  /** The stage of a connection's life that an action is. */
  function StageOf(a: Action): Option<Stage> {
    match a
    case Accept(_, _) => Some(Taken)
    case TryAcquire(_) => Some(Tried)
    case DropConn(_) => Some(Dropping)
    case CountConn(_) => Some(Counting)
    case StartHandler(_) => Some(Starting)
    case HandlerReturns(_) => Some(HandedBack)
    case CloseConn(_) => Some(Closing)
    case ReleaseSlot(_) => Some(Releasing)
    case ConnDone(_) => Some(Done)
    case _ => None
  }

  function StagesFor(s: State, a: Action, c: nat): seq<Stage> {
    if Moved(s, a) == Some(c) && StageOf(a).Some? then [StageOf(a).value] else []
  }

  /** The stages that connection `c` went through in the first `n` actions. */
  function Life(actions: seq<Action>, states: seq<State>, c: nat, n: nat): seq<Stage>
    requires n <= |actions| && |states| == |actions| + 1
  {
    if n == 0 then []
    else
      Life(actions, states, c, n - 1)
      + StagesFor(states[n-1], actions[n-1], c)
  }

  const SERVED: seq<Stage> := [Taken, Tried, Counting, Starting, HandedBack, Closing, Releasing, Done]
  const TURNED_AWAY: seq<Stage> := [Taken, Tried, Dropping]

  /** How far a connection in phase `p` has come. */
  function LifeTo(p: ConnPhase): seq<Stage> {
    match p
    case Accepted => SERVED[..1]
    case Slotted => SERVED[..2]
    case Counted => SERVED[..3]
    case Running => SERVED[..4]
    case Returned => SERVED[..5]
    case Closed => SERVED[..6]
    case Released => SERVED[..7]
    case Finished => SERVED
    case Refused => TURNED_AWAY[..2]
    case Dropped => TURNED_AWAY
  }

  ghost predicate LivedTo(s: State, c: nat, life: seq<Stage>) {
    if c in s.conns then life == LifeTo(s.conns[c].phase) else life == []
  }

  lemma LifeStep(s: State, a: Action, late: bool, c: nat, life: seq<Stage>)
    requires Enabled(s, a, late) && LivedTo(s, c, life)
    ensures LivedTo(Apply(s, a, late), c, life + StagesFor(s, a, c))
  {
    assert SERVED == SERVED[..7] + [Done];
    MovedOnly(s, a, late);
  }

  /** Over all interleavings every connection goes through the stages of one of two lives, in order and
      each once: taken, given a slot, counted, handled, closed, its slot released, and done; or taken,
      refused a slot, and dropped. */
  lemma {:induction false} ConnectionLife(maxConcurrent: int, actions: seq<Action>, states: seq<State>, late: bool,
                                          c: nat, n: nat)
    requires IsRun(maxConcurrent, actions, states, late) && n < |states|
    ensures LivedTo(states[n], c, Life(actions, states, c, n))
  {
    if n > 0 {
      ConnectionLife(maxConcurrent, actions, states, late, c, n - 1);
      LifeStep(states[n-1], actions[n-1], late, c, Life(actions, states, c, n - 1));
    }
  }

  /** The server closed `c` at step `i`: after its handler returned and before it gave its slot back, or
      because it had been refused a slot. */
  ghost predicate ClosedAt(actions: seq<Action>, states: seq<State>, c: nat, i: int) {
    0 <= i < |actions| && |states| == |actions| + 1
    && ((actions[i] == CloseConn(c) && ConnIs(states[i], c, Returned))
        || (actions[i].DropConn? && LoopIs(states[i], actions[i].loop, Busy(c)) && ConnIs(states[i], c, Refused)))
  }

  predicate PastClosing(p: ConnPhase) {
    p.Closed? || p.Released? || p.Finished? || p.Dropped?
  }

  lemma ClosingStep(s: State, a: Action, late: bool, c: nat)
    requires Enabled(s, a, late) && Owned(s)
    ensures var t := Apply(s, a, late);
            c in t.conns && PastClosing(t.conns[c].phase) && !(c in s.conns && PastClosing(s.conns[c].phase)) ==>
              || (a == CloseConn(c) && ConnIs(s, c, Returned))
              || (a.DropConn? && LoopIs(s, a.loop, Busy(c)) && ConnIs(s, c, Refused))
  {
  }

  /** A connection whose slot is back, or that is done or dropped, was closed by the server. */
  lemma {:induction false} ClosedByServer(maxConcurrent: int, actions: seq<Action>, states: seq<State>, late: bool,
                                          c: nat, n: nat)
    requires IsRun(maxConcurrent, actions, states, late) && n < |states|
    requires c in states[n].conns && PastClosing(states[n].conns[c].phase)
    ensures exists i :: 0 <= i < n && ClosedAt(actions, states, c, i)
  {
    if n > 0 {
      SlotsAreExact(maxConcurrent, actions, states, late, n - 1);
      if c in states[n-1].conns && PastClosing(states[n-1].conns[c].phase) {
        ClosedByServer(maxConcurrent, actions, states, late, c, n - 1);
      } else {
        ClosingStep(states[n-1], actions[n-1], late, c);
        assert ClosedAt(actions, states, c, n - 1);
      }
    }
  }

  lemma {:induction false} AcceptedStays(maxConcurrent: int, actions: seq<Action>, states: seq<State>, late: bool,
                                         j: nat, n: nat)
    requires IsRun(maxConcurrent, actions, states, late) && j < n < |states| && actions[j].Accept?
    ensures actions[j].conn in states[n].conns && actions[j].conn !in states[j].conns
    decreases n
  {
    if n > j + 1 {
      AcceptedStays(maxConcurrent, actions, states, late, j, n - 1);
      MovedOnly(states[n-1], actions[n-1], late);
    }
  }

  /** When no Serve begins during a drain that completes, the server has closed every connection that any
      accept loop ever took. */
  lemma DrainClosesAccepted(maxConcurrent: int, actions: seq<Action>, states: seq<State>, j: nat, n: nat)
    requires IsRun(maxConcurrent, actions, states, false) && j < n < |states|
    requires actions[j].Accept? && states[n].drain.Drained?
    ensures exists i :: 0 <= i < n && ClosedAt(actions, states, actions[j].conn, i)
  {
    AcceptedStays(maxConcurrent, actions, states, false, j, n);
    DrainIsComplete(maxConcurrent, actions, states, n);
    ClosedByServer(maxConcurrent, actions, states, false, actions[j].conn, n);
  }

  // ----------------------------------------------------------- overload and accept loops

  lemma {:induction false} LimitStays(maxConcurrent: int, actions: seq<Action>, states: seq<State>, late: bool, n: nat)
    requires IsRun(maxConcurrent, actions, states, late) && n < |states|
    ensures states[n].limit == if maxConcurrent > 0 then Some(maxConcurrent) else None
  {
    if n > 0 {
      LimitStays(maxConcurrent, actions, states, late, n - 1);
      SlotEffect(states[n-1], actions[n-1], late);
    }
  }

  /** A positive limit bounds the connections between acquire and release, over all interleavings. */
  lemma LimitHolds(maxConcurrent: int, actions: seq<Action>, states: seq<State>, late: bool, n: nat)
    requires IsRun(maxConcurrent, actions, states, late) && n < |states| && maxConcurrent > 0
    ensures |SlotHolders(states[n].conns)| <= maxConcurrent
  {
    LimitStays(maxConcurrent, actions, states, late, n);
    SlotsAreExact(maxConcurrent, actions, states, late, n);
  }

  /** A connection is refused exactly when as many others as the limit hold slots. */
  lemma RefusedExactlyWhenFull(maxConcurrent: int, actions: seq<Action>, states: seq<State>, late: bool, i: nat)
    requires IsRun(maxConcurrent, actions, states, late) && i < |actions| && actions[i].TryAcquire?
    ensures states[i].loops[actions[i].loop].Busy?
    ensures var c, full := states[i].loops[actions[i].loop].conn,
                           maxConcurrent > 0 && |SlotHolders(states[i].conns)| == maxConcurrent;
            && c in states[i+1].conns && c !in SlotHolders(states[i].conns)
            && states[i+1].conns[c].phase == if full then Refused else Slotted
  {
    LimitStays(maxConcurrent, actions, states, late, i);
    SlotsAreExact(maxConcurrent, actions, states, late, i);
  }

  lemma LoopEndStep(s: State, a: Action, late: bool, l: nat)
    requires Enabled(s, a, late)
    ensures var t := Apply(s, a, late);
            && t.closed == s.closed + (if a.CloseListener? then {a.loop} else {})
            && (l in t.loops && (t.loops[l].Returning? || t.loops[l].Ended?) ==>
                  (l in s.loops && (s.loops[l].Returning? || s.loops[l].Ended?)) || l in s.closed)
  {
  }

  /** An accept loop ends only if its listener was closed: no failing accept and no overload ends it. */
  lemma {:induction false} LoopsEndOnlyWhenClosed(maxConcurrent: int, actions: seq<Action>, states: seq<State>,
                                                  late: bool,
                                                  l: nat, n: nat)
    requires IsRun(maxConcurrent, actions, states, late) && n < |states|
    ensures l in states[n].closed <==> exists i :: 0 <= i < n && actions[i] == CloseListener(l)
    ensures l in states[n].loops && (states[n].loops[l].Returning? || states[n].loops[l].Ended?) ==>
              l in states[n].closed
  {
    if n > 0 {
      LoopsEndOnlyWhenClosed(maxConcurrent, actions, states, late, l, n - 1);
      LoopEndStep(states[n-1], actions[n-1], late, l);
      assert actions[n-1].CloseListener? && actions[n-1].loop == l ==> actions[n-1] == CloseListener(l);
    }
  }

  // --------------------------------------------------------------------- progress

  ghost function Sum(w: map<nat, nat>): nat {
    if w == map[] then 0 else var k :| k in w; w[k] + Sum(w - {k})
  }

  lemma {:induction false} SumSplit(w: map<nat, nat>, k: nat)
    requires k in w
    ensures Sum(w) == w[k] + Sum(w - {k})
    decreases |w|
  {
    var j :| j in w && Sum(w) == w[j] + Sum(w - {j});
    if j != k {
      SumSplit(w - {j}, k);
      SumSplit(w - {k}, j);
      assert w - {j} - {k} == w - {k} - {j};
    }
  }

  lemma SumUpdate(w: map<nat, nat>, k: nat, v: nat)
    ensures Sum(w[k := v]) == Sum(w) + v - (if k in w then w[k] else 0)
  {
    SumSplit(w[k := v], k);
    if k in w {
      SumSplit(w, k);
      assert w[k := v] - {k} == w - {k};
    } else {
      assert w[k := v] - {k} == w;
    }
  }

  /** Steps a connection still needs. */
  function ConnWork(p: ConnPhase): nat {
    match p
    case Accepted => 9
    case Slotted => 8
    case Counted => 7
    case Refused => 7
    case Running => 5
    case Returned => 4
    case Closed => 3
    case Released => 2
    case Finished => 0
    case Dropped => 0
  }

  function LoopWork(p: LoopPhase): nat {
    match p
    case Busy(_) => 3
    case Accepting => 2
    case Returning => 1
    case Ended => 0
  }

  function DrainWork(p: DrainPhase): nat {
    match p
    case NotDraining => 3
    case AwaitLoops => 2
    case AwaitConns => 1
    case Drained => 0
  }

  function ConnWorks(conns: map<nat, Conn>): map<nat, nat> {
    map c | c in conns :: ConnWork(conns[c].phase)
  }

  function LoopWorks(loops: map<nat, LoopPhase>): map<nat, nat> {
    map l | l in loops :: LoopWork(loops[l])
  }

  /** Bounds the steps left once no listener yields connections. */
  ghost function Work(s: State): nat {
    Sum(ConnWorks(s.conns)) + Sum(LoopWorks(s.loops)) + DrainWork(s.drain)
  }

  /** The steps that the server and its handlers take by themselves. */
  predicate OwnStep(a: Action) {
    !a.Serve? && !a.CloseListener? && !a.AcceptFails? && !a.Accept?
  }

  function WorkOfConn(s: State, c: Option<nat>): nat {
    if c.Some? && c.value in s.conns then ConnWork(s.conns[c.value].phase) else 0
  }

  function WorkOfLoop(s: State, l: Option<nat>): nat {
    if l.Some? && l.value in s.loops then LoopWork(s.loops[l.value]) else 0
  }

  lemma LocalWorkFalls(s: State, a: Action)
    requires OwnStep(a) && Enabled(s, a, false)
    ensures var t, c, l := Apply(s, a, false), Moved(s, a), LoopMoved(a);
            WorkOfConn(t, c) + WorkOfLoop(t, l) + DrainWork(t.drain) <
            WorkOfConn(s, c) + WorkOfLoop(s, l) + DrainWork(s.drain)
  {
  }

  lemma ConnWorksUpdate(conns: map<nat, Conn>, c: nat, x: Conn)
    ensures Sum(ConnWorks(conns[c := x])) ==
            Sum(ConnWorks(conns)) + ConnWork(x.phase) - (if c in conns then ConnWork(conns[c].phase) else 0)
  {
    assert ConnWorks(conns[c := x]) == ConnWorks(conns)[c := ConnWork(x.phase)];
    SumUpdate(ConnWorks(conns), c, ConnWork(x.phase));
  }

  lemma LoopWorksUpdate(loops: map<nat, LoopPhase>, l: nat, p: LoopPhase)
    ensures Sum(LoopWorks(loops[l := p])) ==
            Sum(LoopWorks(loops)) + LoopWork(p) - (if l in loops then LoopWork(loops[l]) else 0)
  {
    assert LoopWorks(loops[l := p]) == LoopWorks(loops)[l := LoopWork(p)];
    SumUpdate(LoopWorks(loops), l, LoopWork(p));
  }

  lemma ConnSumChange(s: State, a: Action)
    requires Enabled(s, a, false)
    ensures var t, c := Apply(s, a, false), Moved(s, a);
            Sum(ConnWorks(t.conns)) - Sum(ConnWorks(s.conns)) == WorkOfConn(t, c) - WorkOfConn(s, c)
  {
    var t := Apply(s, a, false);
    MovedOnly(s, a, false);
    if Moved(s, a).Some? {
      var c := Moved(s, a).value;
      ConnWorksUpdate(s.conns, c, t.conns[c]);
    }
  }

  lemma LoopSumChange(s: State, a: Action)
    requires Enabled(s, a, false)
    ensures var t, l := Apply(s, a, false), LoopMoved(a);
            Sum(LoopWorks(t.loops)) - Sum(LoopWorks(s.loops)) == WorkOfLoop(t, l) - WorkOfLoop(s, l)
  {
    var t := Apply(s, a, false);
    LoopEffect(s, a, false);
    if LoopMoved(a).Some? {
      LoopWorksUpdate(s.loops, LoopMoved(a).value, t.loops[LoopMoved(a).value]);
    }
  }

  /** The server's own steps run out. */
  lemma OwnStepLessWork(s: State, a: Action)
    requires OwnStep(a) && Enabled(s, a, false)
    ensures Work(Apply(s, a, false)) < Work(s)
  {
    LocalWorkFalls(s, a);
    ConnSumChange(s, a);
    LoopSumChange(s, a);
  }

  /** With every listener closed, something can always move until the drain is complete. */
  lemma NeverStuck(s: State) returns (a: Action)
    requires Counts(s) && Owned(s) && s.loops.Keys <= s.closed && !s.drain.Drained?
    ensures OwnStep(a) && Enabled(s, a, false)
  {
    if s.drain.NotDraining? {
      a := StartDrain;
    } else if l :| l in LiveLoops(s.loops) {
      match s.loops[l]
      case Accepting => a := AcceptEnds(l);
      case Returning => a := LoopDone(l);
      case Busy(c) =>
        match s.conns[c].phase
        case Accepted => a := TryAcquire(l);
        case Refused => a := DropConn(l);
        case Slotted => a := CountConn(l);
        case Counted => a := StartHandler(l);
    } else if s.drain.AwaitLoops? {
      assert LiveLoops(s.loops) == {};
      a := LoopsAwaited;
    } else if c :| c in Waited(s.conns) {
      match s.conns[c].phase
      case Counted => a := StartHandler(s.conns[c].owner);
      case Running => a := HandlerReturns(c);
      case Returned => a := CloseConn(c);
      case Closed => a := ReleaseSlot(c);
      case Released => a := ConnDone(c);
    } else {
      assert Waited(s.conns) == {};
      a := ConnsAwaited;
    }
  }

  lemma OwnStepKeeps(s: State, a: Action)
    requires Counts(s) && Owned(s) && s.loops.Keys <= s.closed && OwnStep(a) && Enabled(s, a, false)
    ensures var t := Apply(s, a, false);
            Counts(t) && Owned(t) && t.loops.Keys <= t.closed && Work(t) < Work(s)
  {
    CountsKept(s, a, false);
    OwnedKept(s, a, false);
    OwnStepLessWork(s, a);
    LoopEffect(s, a, false);
  }

  /** Once every listener is closed and no Serve follows, the server's own steps, in any order, end:
      after at most `Work` of them the drain is complete. */
  lemma {:induction false} DrainTerminates(s: State, actions: seq<Action>, states: seq<State>)
    requires Counts(s) && Owned(s) && s.loops.Keys <= s.closed
    requires |states| == |actions| + 1 && states[0] == s
    requires forall i :: 0 <= i < |actions| ==>
               OwnStep(actions[i]) && Enabled(states[i], actions[i], false)
               && states[i+1] == Apply(states[i], actions[i], false)
    ensures |actions| <= Work(s)
    ensures var last := states[|actions|];
            last.drain.Drained? || exists a :: OwnStep(a) && Enabled(last, a, false)
    decreases |actions|
  {
    if actions == [] {
      if !s.drain.Drained? {
        var a := NeverStuck(s);
      }
    } else {
      var t := states[1];
      assert OwnStep(actions[0]) && Enabled(states[0], actions[0], false) && t == Apply(states[0], actions[0], false);
      OwnStepKeeps(s, actions[0]);
      DrainTerminates(t, actions[1..], states[1..]);
    }
  }
}
