/** internal/proxy/proxy.go: the accept loop, the connection handlers and Stop, as a step system.
    One step per mutex section, channel operation or WaitGroup operation; every other action may end a handler. */
module Connections {

  const MaxConnections: nat := 256

  /** The sockets of one handler, in the order in which it registers them */
  datatype Socket = Raw | Backend | Tls

  /** Freed: the slot is given back and only the WaitGroup is left to be told. */
  datatype HandlerPc = Fresh | Serving | Unwinding | Freed | Gone

  datatype Handler = Handler(pc: HandlerPc, held: seq<Socket>)

  /** Connected: a client is accepted. Admitted: it has a slot. Counted: the WaitGroup knows its handler. */
  datatype LoopPc = NotStarted | Top | Accepting | Connected | Admitted | Counted | Exited

  datatype StopPc = Draining | Drained | Refused

  /** `slots` is the fill of the slot channel, `wg` the WaitGroup's counter, `active` the map of active connections. */
  datatype State = State(
    listening: bool,
    stopped: bool,
    loop: LoopPc,
    slots: nat,
    wg: int,
    handlers: map<nat, Handler>,
    active: set<(nat, Socket)>,
    stops: map<nat, StopPc>)

  datatype Step =
    | Start
    | CheckListener
    | Accept(ok: bool, cancelled: bool)
    | TakeSlot
    | Count
    | Spawn(h: nat)
    | Register(h: nat, deadlineFails: bool)
    | Open(h: nat)
    | Finish(h: nat)
    | Close(h: nat)
    | Release(h: nat)
    | Report(h: nat)
    | StopBegin(i: nat)
    | StopEnd(i: nat)

  predicate At(s: State, h: nat, pc: HandlerPc) {
    h in s.handlers && s.handlers[h].pc == pc
  }

  predicate Enabled(s: State, e: Step) {
    match e
    case Start => !s.stopped && !s.listening && s.loop.NotStarted?
    case CheckListener => s.loop.Top?
    case Accept(_, _) => s.loop.Accepting?
    case TakeSlot => s.loop.Connected?
    case Count => s.loop.Admitted?
    case Spawn(h) => s.loop.Counted? && h !in s.handlers
    case Register(h, _) => At(s, h, Fresh)
    case Open(h) => At(s, h, Serving) && 1 <= |s.handlers[h].held| < 3
    case Finish(h) => At(s, h, Serving)
    case Close(h) => At(s, h, Unwinding) && s.handlers[h].held != []
    case Release(h) => At(s, h, Unwinding) && s.handlers[h].held == [] && s.slots > 0
    case Report(h) => At(s, h, Freed)
    case StopBegin(i) => i !in s.stops
    case StopEnd(i) => i in s.stops && s.stops[i].Draining? && s.wg == 0
  }

  function NextLoop(s: State, e: Step): LoopPc {
    match e
    case Start => Top
    case CheckListener => if s.listening then Accepting else Exited
    case Accept(ok, cancelled) =>
      if ok then Connected else if cancelled || !s.listening || s.stopped then Exited else Top
    case TakeSlot => if s.slots < MaxConnections then Admitted else Top
    case Count => Counted
    case Spawn(_) => Top
    case _ => s.loop
  }

  /** The socket a handler registers next */
  function NextSocket(held: seq<Socket>): Socket {
    if |held| == 0 then Raw else if |held| == 1 then Backend else Tls
  }

  function NextHandlers(s: State, e: Step): map<nat, Handler>
    requires Enabled(s, e)
  {
    match e
    case Spawn(h) => s.handlers[h := Handler(Fresh, [])]
    case Register(h, fails) => s.handlers[h := if fails then Handler(Unwinding, []) else Handler(Serving, [Raw])]
    case Open(h) => s.handlers[h := Handler(Serving, s.handlers[h].held + [NextSocket(s.handlers[h].held)])]
    case Finish(h) => s.handlers[h := s.handlers[h].(pc := Unwinding)]
    case Close(h) => s.handlers[h := Handler(Unwinding, s.handlers[h].held[..|s.handlers[h].held| - 1])]
    case Release(h) => s.handlers[h := s.handlers[h].(pc := Freed)]
    case Report(h) => s.handlers[h := s.handlers[h].(pc := Gone)]
    case _ => s.handlers
  }

  function NextActive(s: State, e: Step): set<(nat, Socket)>
    requires Enabled(s, e)
  {
    match e
    case Register(h, fails) => if fails then s.active else s.active + {(h, Raw)}
    case Open(h) => s.active + {(h, NextSocket(s.handlers[h].held))}
    case Close(h) => s.active - {(h, s.handlers[h].held[|s.handlers[h].held| - 1])}
    case _ => s.active
  }

  function NextSlots(s: State, e: Step): nat
    requires Enabled(s, e)
  {
    if e.TakeSlot? && s.slots < MaxConnections then s.slots + 1
    else if e.Release? then s.slots - 1
    else s.slots
  }

  function NextWg(s: State, e: Step): int
    requires Enabled(s, e)
  {
    if e.Start? || e.Count? then s.wg + 1
    else if e.Report? || (NextLoop(s, e).Exited? && !s.loop.Exited?) then s.wg - 1
    else s.wg
  }

  function NextStops(s: State, e: Step): map<nat, StopPc>
    requires Enabled(s, e)
  {
    match e
    case StopBegin(i) => s.stops[i := if s.stopped then Refused else Draining]
    case StopEnd(i) => s.stops[i := Drained]
    case _ => s.stops
  }

  function Apply(s: State, e: Step): State
    requires Enabled(s, e)
  {
    State(e.Start? || (s.listening && !e.StopBegin?),
          s.stopped || e.StopBegin?,
          NextLoop(s, e),
          NextSlots(s, e),
          NextWg(s, e),
          NextHandlers(s, e),
          NextActive(s, e),
          NextStops(s, e))
  }

  // ---- The invariant ----

  /** The handlers that occupy a slot */
  function Live(hs: map<nat, Handler>): set<nat> {
    set h | h in hs && !hs[h].pc.Freed? && !hs[h].pc.Gone?
  }

  /** The handlers the WaitGroup still waits for */
  function Unfinished(hs: map<nat, Handler>): set<nat> {
    set h | h in hs && !hs[h].pc.Gone?
  }

  /** The slot taken for a client whose handler does not run yet */
  function Reserved(l: LoopPc): nat {
    if l.Admitted? || l.Counted? then 1 else 0
  }

  predicate Running(l: LoopPc) {
    !l.NotStarted? && !l.Exited?
  }

  ghost predicate SlotsMatch(s: State) {
    s.slots == |Live(s.handlers)| + Reserved(s.loop) <= MaxConnections
  }

  ghost predicate WgMatches(s: State) {
    s.wg == |Unfinished(s.handlers)| + (if Running(s.loop) then 1 else 0) + (if s.loop.Counted? then 1 else 0)
  }

  /** Sockets are registered in order, and only by handlers that are serving or unwinding. */
  predicate GoodHandler(h: Handler) {
    && h.held <= [Raw, Backend, Tls]
    && (h.pc.Serving? ==> h.held != [])
    && (h.held != [] ==> h.pc.Serving? || h.pc.Unwinding?)
  }

  ghost predicate ActiveMatches(s: State) {
    && (forall h :: h in s.handlers ==> GoodHandler(s.handlers[h]))
    && (forall h, c :: (h, c) in s.active <==> h in s.handlers && c in s.handlers[h].held)
  }

  /** Nothing runs, and nothing will start again. */
  ghost predicate Quiet(s: State) {
    s.stopped && !Running(s.loop) && forall h :: h in s.handlers ==> s.handlers[h].pc.Gone?
  }

  ghost predicate StopsMatch(s: State) {
    && (forall i :: i in s.stops ==> s.stopped)
    && (s.stopped ==> !s.listening)
    && (s.listening ==> !s.loop.NotStarted?)
    && (forall i :: i in s.stops && s.stops[i].Drained? ==> Quiet(s))
    && (forall i, j :: i in s.stops && j in s.stops && !s.stops[i].Refused? && !s.stops[j].Refused? ==> i == j)
    && (s.stopped ==> exists i :: i in s.stops && !s.stops[i].Refused?)
  }

  ghost predicate Invariant(s: State) {
    SlotsMatch(s) && WgMatches(s) && ActiveMatches(s) && StopsMatch(s)
  }

  const Initial: State := State(false, false, NotStarted, 0, 0, map[], {}, map[])

  predicate HasSlot(h: Handler) {
    !h.pc.Freed? && !h.pc.Gone?
  }

  function Size(b: bool): nat {
    if b then 1 else 0
  }

  /** A step changes the sets of live and of unfinished handlers by the handler that takes it alone. */
  lemma MovedLive(hs: map<nat, Handler>, h: nat, v: Handler)
    ensures |Live(hs[h := v])| == |Live(hs)| - Size(h in hs && HasSlot(hs[h])) + Size(HasSlot(v))
  {
    var rest := Live(hs) - {h};
    assert Live(hs) == if h in hs && HasSlot(hs[h]) then rest + {h} else rest;
    assert Live(hs[h := v]) == if HasSlot(v) then rest + {h} else rest;
  }

  lemma MovedUnfinished(hs: map<nat, Handler>, h: nat, v: Handler)
    ensures |Unfinished(hs[h := v])| == |Unfinished(hs)| - Size(h in hs && !hs[h].pc.Gone?) + Size(!v.pc.Gone?)
  {
    var rest := Unfinished(hs) - {h};
    assert Unfinished(hs) == if h in hs && !hs[h].pc.Gone? then rest + {h} else rest;
    assert Unfinished(hs[h := v]) == if !v.pc.Gone? then rest + {h} else rest;
  }

  /** Only Spawn adds a live handler and only Release removes one; Report is the end of a handler. */
  lemma HandlersCount(s: State, e: Step)
    requires Enabled(s, e)
    ensures |Live(NextHandlers(s, e))| == |Live(s.handlers)| + Size(e.Spawn?) - Size(e.Release?)
    ensures |Unfinished(NextHandlers(s, e))| == |Unfinished(s.handlers)| + Size(e.Spawn?) - Size(e.Report?)
  {
    match e
    case Start => case CheckListener => case Accept(_, _) => case TakeSlot => case Count =>
    case StopBegin(_) => case StopEnd(_) =>
    case _ =>
      MovedLive(s.handlers, e.h, NextHandlers(s, e)[e.h]);
      MovedUnfinished(s.handlers, e.h, NextHandlers(s, e)[e.h]);
  }

  lemma KeepsSlots(s: State, e: Step)
    requires SlotsMatch(s) && Enabled(s, e)
    ensures SlotsMatch(Apply(s, e))
  {
    HandlersCount(s, e);
  }

  lemma KeepsWg(s: State, e: Step)
    requires WgMatches(s) && Enabled(s, e)
    ensures WgMatches(Apply(s, e))
  {
    HandlersCount(s, e);
  }

  lemma NextHeld(held: seq<Socket>)
    requires held <= [Raw, Backend, Tls]
    ensures |held| < 3 ==> held + [NextSocket(held)] <= [Raw, Backend, Tls] && NextSocket(held) !in held
    ensures held != [] ==> held[|held| - 1] !in held[..|held| - 1] && held[..|held| - 1] <= [Raw, Backend, Tls]
  {}

  lemma KeepsGood(s: State, e: Step, h: nat)
    requires ActiveMatches(s) && Enabled(s, e) && h in NextHandlers(s, e)
    ensures GoodHandler(NextHandlers(s, e)[h])
  {
    if h in s.handlers {
      NextHeld(s.handlers[h].held);
    }
  }

  /** The registered sockets, after and before the step, of a handler that the step does not concern */
  lemma OthersRegistered(s: State, e: Step, h: nat, c: Socket)
    requires ActiveMatches(s) && Enabled(s, e)
    requires (e.Spawn? || e.Register? || e.Open? || e.Finish? || e.Close? || e.Release? || e.Report?) ==> h != e.h
    ensures (h, c) in NextActive(s, e) <==> h in NextHandlers(s, e) && c in NextHandlers(s, e)[h].held
  {}

  lemma OpenRegistered(s: State, h: nat, c: Socket)
    requires ActiveMatches(s) && Enabled(s, Open(h))
    ensures (h, c) in NextActive(s, Open(h)) <==> c in NextHandlers(s, Open(h))[h].held
  {
    assert (h, c) in s.active <==> c in s.handlers[h].held;
  }

  lemma CloseRegistered(s: State, h: nat, c: Socket)
    requires ActiveMatches(s) && Enabled(s, Close(h))
    ensures (h, c) in NextActive(s, Close(h)) <==> c in NextHandlers(s, Close(h))[h].held
  {
    var held := s.handlers[h].held;
    NextHeld(held);
    assert held == held[..|held| - 1] + [held[|held| - 1]];
    assert (h, c) in s.active <==> c in held;
  }

  lemma OwnRegistered(s: State, e: Step, c: Socket)
    requires ActiveMatches(s) && Enabled(s, e)
    requires e.Spawn? || e.Register? || e.Finish? || e.Release? || e.Report?
    ensures (e.h, c) in NextActive(s, e) <==> c in NextHandlers(s, e)[e.h].held
  {
    assert (e.h, c) in s.active <==> e.h in s.handlers && c in s.handlers[e.h].held;
    if e.Register? {
      assert GoodHandler(s.handlers[e.h]);
    }
  }

  lemma KeepsRegistered(s: State, e: Step, h: nat, c: Socket)
    requires ActiveMatches(s) && Enabled(s, e)
    ensures (h, c) in NextActive(s, e) <==> h in NextHandlers(s, e) && c in NextHandlers(s, e)[h].held
  {
    if e.Open? && h == e.h {
      OpenRegistered(s, h, c);
    } else if e.Close? && h == e.h {
      CloseRegistered(s, h, c);
    } else if (e.Spawn? || e.Register? || e.Finish? || e.Release? || e.Report?) && h == e.h {
      OwnRegistered(s, e, c);
    } else {
      OthersRegistered(s, e, h, c);
    }
  }

  lemma KeepsActive(s: State, e: Step)
    requires ActiveMatches(s) && Enabled(s, e)
    ensures ActiveMatches(Apply(s, e))
  {
    forall h | h in NextHandlers(s, e) ensures GoodHandler(NextHandlers(s, e)[h]) {
      KeepsGood(s, e, h);
    }
    forall h, c ensures (h, c) in NextActive(s, e) <==> h in NextHandlers(s, e) && c in NextHandlers(s, e)[h].held {
      KeepsRegistered(s, e, h, c);
    }
  }

  lemma KeepsQuiet(s: State, e: Step)
    requires Quiet(s) && StopsMatch(s) && Enabled(s, e)
    ensures Quiet(Apply(s, e))
  {}

  /** When the WaitGroup's counter is zero after a stop, nothing is left. */
  lemma ZeroMeansQuiet(s: State)
    requires WgMatches(s) && s.stopped && s.wg == 0
    ensures Quiet(s)
  {
    forall h | h in s.handlers ensures s.handlers[h].pc.Gone? {
      assert h !in Unfinished(s.handlers);
    }
  }

  lemma KeepsStops(s: State, e: Step)
    requires WgMatches(s) && StopsMatch(s) && Enabled(s, e)
    ensures StopsMatch(Apply(s, e))
  {
    var s' := Apply(s, e);
    if e.StopEnd? {
      ZeroMeansQuiet(s);
    }
    forall i | i in s'.stops && s'.stops[i].Drained? ensures Quiet(s') {
      assert Quiet(s);
      KeepsQuiet(s, e);
    }
    if s'.stopped {
      if s.stopped {
        var i :| i in s.stops && !s.stops[i].Refused?;
        assert i in s'.stops && !s'.stops[i].Refused?;
      } else {
        assert e.i in s'.stops && !s'.stops[e.i].Refused?;
      }
    }
  }

  lemma KeepsInvariant(s: State, e: Step)
    requires Invariant(s) && Enabled(s, e)
    ensures Invariant(Apply(s, e))
  {
    KeepsSlots(s, e);
    KeepsWg(s, e);
    KeepsActive(s, e);
    KeepsStops(s, e);
  }

  // ---- Runs ----

  /** `s` is reached from a new server; `run` lists the steps, the last one first. */
  ghost predicate Reached(s: State, run: seq<Step>)
    decreases |run|
  {
    if run == [] then s == Initial
    else exists p :: Reached(p, run[1..]) && Enabled(p, run[0]) && s == Apply(p, run[0])
  }

  lemma {:induction false} ReachedInvariant(s: State, run: seq<Step>)
    requires Reached(s, run)
    ensures Invariant(s)
    decreases |run|
  {
    if run != [] {
      var p :| Reached(p, run[1..]) && Enabled(p, run[0]) && s == Apply(p, run[0]);
      ReachedInvariant(p, run[1..]);
      KeepsInvariant(p, run[0]);
    }
  }

  /** Every occupied slot belongs to a live handler or to the client being admitted, so there are never more than 256. */
  lemma AtMost256(s: State, run: seq<Step>)
    requires Reached(s, run)
    ensures |Live(s.handlers)| <= s.slots <= 256
    ensures s.slots == |Live(s.handlers)| + Reserved(s.loop)
  {
    ReachedInvariant(s, run);
  }

  /** A client that is accepted gets a slot exactly when fewer than 256 are taken; else it is turned away and the loop goes on. */
  lemma AdmittedBelowLimit(s: State, run: seq<Step>)
    requires Reached(s, run) && s.loop == Connected
    ensures Enabled(s, TakeSlot)
    ensures var s' := Apply(s, TakeSlot);
            && (s.slots < 256 ==> s'.loop == Admitted && s'.slots == s.slots + 1)
            && (s.slots == 256 ==> s'.loop == Top && s'.slots == s.slots)
            && s'.handlers == s.handlers && s'.active == s.active
    ensures |Live(s.handlers)| < 256 ==> s.slots < 256
  {
    ReachedInvariant(s, run);
  }

  /** The accept loop ends only when the server stops, its listener is gone or its context is cancelled. */
  lemma LoopEndsForAReason(s: State, e: Step)
    requires Enabled(s, e) && s.loop != Exited && Apply(s, e).loop == Exited
    ensures !s.listening || s.stopped || (e.Accept? && e.cancelled)
  {}

  /** A registered connection belongs to a handler that still has its slot; a finished handler has none. */
  lemma ActiveBelongsToLive(s: State, run: seq<Step>, h: nat, c: Socket)
    requires Reached(s, run) && (h, c) in s.active
    ensures h in Live(s.handlers) && c in s.handlers[h].held
  {
    ReachedInvariant(s, run);
    assert GoodHandler(s.handlers[h]);
  }

  /** A handler that is unwinding can always go on to give its slot back: the channel is never empty then. */
  lemma ReleaseNeverBlocks(s: State, run: seq<Step>, h: nat)
    requires Reached(s, run)
    requires At(s, h, Unwinding)
    ensures s.handlers[h].held != [] ==> Enabled(s, Close(h))
    ensures s.handlers[h].held == [] ==> Enabled(s, Release(h))
  {
    ReachedInvariant(s, run);
    assert h in Live(s.handlers);
  }

  /** Once the Stop call that set `stopped` has returned: no handler, no occupied slot, no active connection. */
  lemma StopLeavesNothing(s: State, run: seq<Step>, i: nat)
    requires Reached(s, run)
    requires i in s.stops && s.stops[i].Drained?
    ensures Unfinished(s.handlers) == {} && s.slots == 0 && s.active == {} && s.wg == 0 && !Running(s.loop)
  {
    ReachedInvariant(s, run);
    assert Live(s.handlers) == {} && Unfinished(s.handlers) == {};
    forall x ensures x !in s.active {
      assert x == (x.0, x.1);
      assert x.0 in s.handlers ==> GoodHandler(s.handlers[x.0]);
    }
  }

  /** Exactly one Stop call drains the server; every other one returns without waiting. */
  lemma OneStopDrains(s: State, run: seq<Step>)
    requires Reached(s, run)
    ensures s.stopped <==> exists i :: i in s.stops && !s.stops[i].Refused?
    ensures forall i, j :: i in s.stops && j in s.stops && !s.stops[i].Refused? && !s.stops[j].Refused? ==> i == j
  {
    ReachedInvariant(s, run);
  }
}
