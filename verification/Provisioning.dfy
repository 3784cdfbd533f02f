/** internal/proxy/proxy.go, ensureBranchExists: just-in-time provisioning by any number of connections at once.
    One step per mutex section or driver call; every driver call may fail. */
module Provisioning {
  import opened Wrappers
  import KL = KeyedLock

  datatype Result = Nil | Failed

  /** Where a call of ensureBranchExists stands. */
  datatype Pc =
    | FastCheck
    | Entering
    | Acquiring
    | DoubleCheck
    | CheckExists
    | Create
    | Publish
    | Unlocking(result: Result)
    | Leaving(result: Result)
    | Returned(result: Result)

  datatype Call = Call(branch: string, pc: Pc)

  /** A CreateBranch call of the driver: its branch, whether the branch was there already, whether it succeeded. */
  datatype Creation = Creation(branch: string, existed: bool, ok: bool)

  /** Calls are numbered; so are lock entries. `databases` is the server's side, `creations` the driver's history,
      `failed` the calls one of whose driver calls has failed. */
  datatype State = State(
    lock: KL.State<string, nat, nat>,
    calls: map<nat, Call>,
    provisioned: set<string>,
    databases: set<string>,
    creations: seq<Creation>,
    failed: set<nat>)

  /** A failing Make may leave a database behind all the same. */
  datatype Step =
    | Begin(t: nat, branch: string)
    | LookUp(t: nat)
    | Enter(t: nat, entry: nat)
    | Acquire(t: nat)
    | Exists(t: nat, fails: bool)
    | Make(t: nat, fails: bool, leaves: bool)
    | Record(t: nat)
    | Unlock(t: nat)
    | Leave(t: nat)

  predicate At(s: State, t: nat, pc: Pc) {
    t in s.calls && s.calls[t].pc == pc
  }

  predicate IsUnlocking(s: State, t: nat) {
    t in s.calls && s.calls[t].pc.Unlocking?
  }

  predicate IsLeaving(s: State, t: nat) {
    t in s.calls && s.calls[t].pc.Leaving?
  }

  /** The step that the lock takes along, if any */
  function LockEvent(s: State, e: Step): Option<KL.Event<string, nat, nat>>
    requires e.Enter? ==> e.t in s.calls
  {
    match e
    case Enter(t, entry) => Some(KL.Enter(t, s.calls[t].branch, entry))
    case Acquire(t) => Some(KL.Acquire(t))
    case Unlock(t) => Some(KL.Unlock(t))
    case Leave(t) => Some(KL.Leave(t))
    case _ => None
  }

  predicate Ready(s: State, e: Step) {
    match e
    case Begin(t, _) => t !in s.calls
    case LookUp(t) => At(s, t, FastCheck) || At(s, t, DoubleCheck)
    case Enter(t, _) => At(s, t, Entering)
    case Acquire(t) => At(s, t, Acquiring)
    case Exists(t, _) => At(s, t, CheckExists)
    case Make(t, _, _) => At(s, t, Create)
    case Record(t) => At(s, t, Publish)
    case Unlock(t) => IsUnlocking(s, t)
    case Leave(t) => IsLeaving(s, t)
  }

  predicate Enabled(s: State, e: Step) {
    Ready(s, e) && (LockEvent(s, e).Some? ==> KL.Enabled(s.lock, LockEvent(s, e).value))
  }

  function NextPc(s: State, e: Step): Pc
    requires Ready(s, e) && !e.Begin?
  {
    var c := s.calls[e.t];
    match e
    case LookUp(_) =>
      if c.branch in s.provisioned then (if c.pc.FastCheck? then Returned(Nil) else Unlocking(Nil))
      else if c.pc.FastCheck? then Entering else CheckExists
    case Enter(_, _) => Acquiring
    case Acquire(_) => DoubleCheck
    case Exists(_, fails) => if fails then Unlocking(Failed) else if c.branch in s.databases then Publish else Create
    case Make(_, fails, _) => if fails then Unlocking(Failed) else Publish
    case Record(_) => Unlocking(Nil)
    case Unlock(_) => Leaving(c.pc.result)
    case Leave(_) => Returned(c.pc.result)
  }

  function NextCall(s: State, e: Step): Call
    requires Ready(s, e)
  {
    if e.Begin? then Call(e.branch, FastCheck) else Call(s.calls[e.t].branch, NextPc(s, e))
  }

  function NextLock(s: State, e: Step): KL.State<string, nat, nat>
    requires Enabled(s, e)
  {
    var l := LockEvent(s, e);
    if l.Some? then KL.Apply(s.lock, l.value) else s.lock
  }

  function NextDatabases(s: State, e: Step): set<string>
    requires Ready(s, e)
  {
    if e.Make? && (!e.fails || e.leaves) then s.databases + {s.calls[e.t].branch} else s.databases
  }

  function NextCreations(s: State, e: Step): seq<Creation>
    requires Ready(s, e)
  {
    if !e.Make? then s.creations
    else
      var b := s.calls[e.t].branch;
      s.creations + [Creation(b, b in s.databases, !e.fails)]
  }

  function Apply(s: State, e: Step): State
    requires Enabled(s, e)
  {
    State(NextLock(s, e),
          s.calls[e.t := NextCall(s, e)],
          if e.Record? then s.provisioned + {s.calls[e.t].branch} else s.provisioned,
          NextDatabases(s, e),
          NextCreations(s, e),
          if (e.Exists? || e.Make?) && e.fails then s.failed + {e.t} else s.failed)
  }

  // ---- The invariant ----

  /** The calls that are between acquiring and releasing the lock of their branch */
  predicate Critical(pc: Pc) {
    pc.DoubleCheck? || pc.CheckExists? || pc.Create? || pc.Publish? || pc.Unlocking?
  }

  /** Where a call stands in ensureBranchExists says where it stands in the lock. */
  predicate LinkedCall(s: State, t: nat)
    requires t in s.calls
  {
    var c := s.calls[t];
    if c.pc.FastCheck? || c.pc.Entering? then t !in s.lock.tickets
    else if c.pc.Returned? then t in s.lock.tickets ==> KL.In(s.lock, t, KL.Done)
    else
      && t in s.lock.tickets && s.lock.tickets[t].key == c.branch
      && s.lock.tickets[t].phase == (if c.pc.Acquiring? then KL.Waiting else if Critical(c.pc) then KL.Holding else KL.Released)
  }

  ghost predicate Linked(s: State) {
    && KL.Invariant(s.lock)
    && (forall t :: t in s.calls ==> LinkedCall(s, t))
    && (forall t :: t in s.lock.tickets ==> t in s.calls)
  }

  predicate Succeeds(pc: Pc) {
    pc.Publish? || pc == Unlocking(Nil) || pc == Leaving(Nil) || pc == Returned(Nil)
  }

  /** What each call knows about its branch's database. */
  ghost predicate Known(s: State) {
    && s.provisioned <= s.databases
    && (forall t :: t in s.calls && Succeeds(s.calls[t].pc) ==> s.calls[t].branch in s.databases)
    && (forall t :: t in s.calls && s.calls[t].pc.Create? ==> s.calls[t].branch !in s.databases)
  }

  ghost predicate Once(s: State) {
    && (forall i :: 0 <= i < |s.creations| ==> !s.creations[i].existed)
    && (forall i :: 0 <= i < |s.creations| && s.creations[i].ok ==> s.creations[i].branch in s.databases)
    && (forall i, j :: 0 <= i < j < |s.creations| && s.creations[i].ok && s.creations[j].ok ==>
                         s.creations[i].branch != s.creations[j].branch)
  }

  predicate HasFailed(pc: Pc) {
    (pc.Unlocking? || pc.Leaving? || pc.Returned?) && pc.result.Failed?
  }

  ghost predicate Accounted(s: State) {
    forall t :: t in s.failed <==> t in s.calls && HasFailed(s.calls[t].pc)
  }

  ghost predicate Invariant(s: State) {
    Linked(s) && Known(s) && Once(s) && Accounted(s)
  }

  function Initial(databases: set<string>): State {
    State(KL.Initial(), map[], {}, databases, [], {})
  }

  lemma OtherTicket(l: KL.State<string, nat, nat>, e: KL.Event<string, nat, nat>, u: nat)
    requires KL.Enabled(l, e) && u != e.t
    ensures var l' := KL.Apply(l, e);
            (u in l'.tickets <==> u in l.tickets) && (u in l.tickets ==> l'.tickets[u] == l.tickets[u])
  {}

  /** The step of a call keeps its own place in the lock. */
  lemma KeepsOwnLink(s: State, e: Step)
    requires KL.Flagged(s.lock) && Enabled(s, e)
    requires if e.t in s.calls then LinkedCall(s, e.t) else e.t !in s.lock.tickets
    ensures LinkedCall(Apply(s, e), e.t)
  {}

  lemma KeepsLinked(s: State, e: Step)
    requires Linked(s) && Enabled(s, e)
    ensures Linked(Apply(s, e))
  {
    var s' := Apply(s, e);
    var l := LockEvent(s, e);
    if l.Some? {
      KL.KeepsInvariant(s.lock, l.value);
    }
    KeepsOwnLink(s, e);
    forall u: nat | u != e.t
      ensures (u in s'.lock.tickets ==> u in s'.calls) && (u in s'.calls ==> LinkedCall(s', u))
    {
      if l.Some? {
        OtherTicket(s.lock, l.value, u);
      }
    }
  }

  /** Two calls in the critical section work on different branches. */
  lemma OneCallPerBranch(s: State, t: nat, u: nat)
    requires Linked(s) && t in s.calls && u in s.calls
    requires Critical(s.calls[t].pc) && Critical(s.calls[u].pc) && s.calls[t].branch == s.calls[u].branch
    ensures t == u
  {
    assert LinkedCall(s, t) && LinkedCall(s, u);
    assert KL.Live(s.lock, t) && KL.Live(s.lock, u);
    assert KL.In(s.lock, t, KL.Holding) && KL.In(s.lock, u, KL.Holding);
  }

  lemma KeepsAbsent(s: State, e: Step, t: nat)
    requires Linked(s) && Known(s) && Enabled(s, e)
    requires t in Apply(s, e).calls && Apply(s, e).calls[t].pc.Create?
    ensures Apply(s, e).calls[t].branch !in Apply(s, e).databases
  {
    if t != e.t && e.Make? && s.calls[t].branch == s.calls[e.t].branch {
      OneCallPerBranch(s, t, e.t);
    }
  }

  lemma KeepsPresent(s: State, e: Step, t: nat)
    requires Known(s) && Enabled(s, e)
    requires t in Apply(s, e).calls && Succeeds(Apply(s, e).calls[t].pc)
    ensures Apply(s, e).calls[t].branch in Apply(s, e).databases
  {}

  lemma KeepsKnown(s: State, e: Step)
    requires Linked(s) && Known(s) && Enabled(s, e)
    ensures Known(Apply(s, e))
  {
    var s' := Apply(s, e);
    forall t | t in s'.calls && s'.calls[t].pc.Create? ensures s'.calls[t].branch !in s'.databases {
      KeepsAbsent(s, e, t);
    }
    forall t | t in s'.calls && Succeeds(s'.calls[t].pc) ensures s'.calls[t].branch in s'.databases {
      KeepsPresent(s, e, t);
    }
  }

  lemma KeepsOnce(s: State, e: Step)
    requires Known(s) && Once(s) && Enabled(s, e)
    ensures Once(Apply(s, e))
  {}

  lemma KeepsAccounted(s: State, e: Step)
    requires Accounted(s) && Enabled(s, e)
    ensures Accounted(Apply(s, e))
  {}

  lemma KeepsInvariant(s: State, e: Step)
    requires Invariant(s) && Enabled(s, e)
    ensures Invariant(Apply(s, e))
  {
    KeepsLinked(s, e);
    KeepsKnown(s, e);
    KeepsOnce(s, e);
    KeepsAccounted(s, e);
  }

  // ---- Runs ----

  /** `s` is reached from a server with these databases; `run` lists the steps, the last one first. */
  ghost predicate Reached(s: State, databases: set<string>, run: seq<Step>)
    decreases |run|
  {
    if run == [] then s == Initial(databases)
    else exists p :: Reached(p, databases, run[1..]) && Enabled(p, run[0]) && s == Apply(p, run[0])
  }

  lemma {:induction false} ReachedInvariant(s: State, databases: set<string>, run: seq<Step>)
    requires Reached(s, databases, run)
    ensures Invariant(s)
    decreases |run|
  {
    if run == [] {
      KL.InitialInvariant<string, nat, nat>();
    } else {
      var p :| Reached(p, databases, run[1..]) && Enabled(p, run[0]) && s == Apply(p, run[0]);
      ReachedInvariant(p, databases, run[1..]);
      KeepsInvariant(p, run[0]);
    }
  }

  /** A branch is created successfully at most once, and never when the driver already has it. */
  lemma CreatedAtMostOnce(s: State, databases: set<string>, run: seq<Step>)
    requires Reached(s, databases, run)
    ensures forall c :: c in s.creations ==> !c.existed
    ensures forall i, j :: 0 <= i < j < |s.creations| && s.creations[i].ok && s.creations[j].ok ==>
                             s.creations[i].branch != s.creations[j].branch
  {
    ReachedInvariant(s, databases, run);
  }

  /** What the proxy remembers as provisioned exists, and so does the branch of every call that returned nil. */
  lemma ProvisionedExist(s: State, databases: set<string>, run: seq<Step>)
    requires Reached(s, databases, run)
    ensures s.provisioned <= s.databases
    ensures forall t :: At(s, t, Returned(Nil)) ==> s.calls[t].branch in s.databases
  {
    ReachedInvariant(s, databases, run);
  }

  /** However the calls interleave, a call that returns does so with nil exactly when none of its own driver calls failed. */
  lemma FailsOnlyWithTheDriver(s: State, databases: set<string>, run: seq<Step>, t: nat, result: Result)
    requires Reached(s, databases, run) && At(s, t, Returned(result))
    ensures result == Nil <==> t !in s.failed
  {
    ReachedInvariant(s, databases, run);
  }

  predicate Asked(creations: seq<Creation>, b: string) {
    exists i :: 0 <= i < |creations| && creations[i].branch == b
  }

  lemma StepGrows(s: State, e: Step, b: string)
    requires Enabled(s, e)
    ensures b in s.databases ==> b in Apply(s, e).databases
    ensures Asked(s.creations, b) || (b in Apply(s, e).databases && b !in s.databases) ==> Asked(Apply(s, e).creations, b)
  {
    var before, after := s.creations, NextCreations(s, e);
    if Asked(before, b) {
      var i :| 0 <= i < |before| && before[i].branch == b;
      assert after[i].branch == b;
    } else if e.Make? && s.calls[e.t].branch == b {
      assert after[|before|].branch == b;
    }
  }

  /** Databases are never lost, and every new one was asked for by a CreateBranch call. */
  lemma {:induction false} DatabasesGrow(s: State, databases: set<string>, run: seq<Step>, b: string)
    requires Reached(s, databases, run)
    ensures b in databases ==> b in s.databases
    ensures b in s.databases ==> b in databases || Asked(s.creations, b)
    decreases |run|
  {
    if run != [] {
      var p :| Reached(p, databases, run[1..]) && Enabled(p, run[0]) && s == Apply(p, run[0]);
      DatabasesGrow(p, databases, run[1..], b);
      StepGrows(p, run[0], b);
    }
  }

  /** The call is between entering and leaving the lock of its branch. */
  predicate InLock(pc: Pc) {
    pc.Acquiring? || Critical(pc) || pc.Leaving?
  }

  lemma TicketOfCall(s: State, t: nat)
    requires t in s.calls && LinkedCall(s, t)
    ensures KL.Live(s.lock, t) <==> InLock(s.calls[t].pc)
    ensures InLock(s.calls[t].pc) ==> s.lock.tickets[t].key == s.calls[t].branch
  {}

  lemma TicketOfEntry(l: KL.State<string, nat, nat>, b: string) returns (t: nat)
    requires KL.Invariant(l) && b in l.locks
    ensures KL.Live(l, t) && l.tickets[t].key == b
  {
    assert KL.Users(l, l.locks[b]) != {};
    t :| t in KL.Users(l, l.locks[b]);
    assert KL.Live(l, t);
  }

  /** A lock entry is in the map exactly while some call works on its branch: none is left behind, none goes early. */
  lemma EntryIffInLock(s: State, databases: set<string>, run: seq<Step>, b: string)
    requires Reached(s, databases, run)
    ensures b in s.lock.locks <==> exists t :: t in s.calls && s.calls[t].branch == b && InLock(s.calls[t].pc)
  {
    ReachedInvariant(s, databases, run);
    if b in s.lock.locks {
      var t := TicketOfEntry(s.lock, b);
      TicketOfCall(s, t);
    }
    forall t | t in s.calls && s.calls[t].branch == b && InLock(s.calls[t].pc) ensures b in s.lock.locks {
      TicketOfCall(s, t);
    }
  }

  // ---- The code, on its own branch ----

  /** Some run leads to `s`. */
  ghost predicate Reachable(s: State) {
    exists databases, run :: Reached(s, databases, run)
  }

  lemma ReachableInvariant(s: State)
    requires Reachable(s)
    ensures Invariant(s)
  {
    var databases, run :| Reached(s, databases, run);
    ReachedInvariant(s, databases, run);
  }

  lemma StepReachable(s: State, e: Step)
    requires Reachable(s) && Enabled(s, e)
    ensures Reachable(Apply(s, e))
  {
    var databases, run :| Reached(s, databases, run);
    var longer := [e] + run;
    assert longer[1..] == run;
    assert Reached(Apply(s, e), databases, longer);
  }

  /** `s'` is `s` with one call moved on; the lock may have changed. */
  ghost predicate Moves(s: State, s': State, t: nat, c: Call) {
    Reachable(s') && s'.calls == s.calls[t := c]
  }

  ghost predicate SameData(s: State, s': State) {
    s'.provisioned == s.provisioned && s'.databases == s.databases && s'.creations == s.creations
  }

  lemma TakeBegin(s: State, t: nat, branch: string) returns (s': State)
    requires Reachable(s) && t !in s.calls
    ensures Moves(s, s', t, Call(branch, FastCheck)) && SameData(s, s') && s'.lock == s.lock
  {
    StepReachable(s, Begin(t, branch));
    s' := Apply(s, Begin(t, branch));
  }

  lemma TakeFirstLookUp(s: State, t: nat) returns (s': State)
    requires Reachable(s) && At(s, t, FastCheck)
    ensures var b := s.calls[t].branch;
            Moves(s, s', t, Call(b, if b in s.provisioned then Returned(Nil) else Entering)) && SameData(s, s') && s'.lock == s.lock
  {
    StepReachable(s, LookUp(t));
    s' := Apply(s, LookUp(t));
  }

  lemma TakeSecondLookUp(s: State, t: nat) returns (s': State)
    requires Reachable(s) && At(s, t, DoubleCheck)
    ensures var b := s.calls[t].branch;
            Moves(s, s', t, Call(b, if b in s.provisioned then Unlocking(Nil) else CheckExists)) && SameData(s, s')
  {
    StepReachable(s, LookUp(t));
    s' := Apply(s, LookUp(t));
  }

  lemma TakeEnter(s: State, t: nat, entry: nat) returns (s': State)
    requires Reachable(s) && At(s, t, Entering) && s.calls[t].branch !in s.lock.locks && entry !in s.lock.heap
    ensures Moves(s, s', t, Call(s.calls[t].branch, Acquiring)) && SameData(s, s')
    ensures KL.Enabled(s'.lock, KL.Acquire(t))
  {
    ReachableInvariant(s);
    assert LinkedCall(s, t);
    StepReachable(s, Step.Enter(t, entry));
    s' := Apply(s, Step.Enter(t, entry));
  }

  lemma TakeAcquire(s: State, t: nat) returns (s': State)
    requires Reachable(s) && At(s, t, Acquiring) && KL.Enabled(s.lock, KL.Acquire(t))
    ensures Moves(s, s', t, Call(s.calls[t].branch, DoubleCheck)) && SameData(s, s')
  {
    StepReachable(s, Step.Acquire(t));
    s' := Apply(s, Step.Acquire(t));
  }

  lemma TakeExists(s: State, t: nat, fails: bool) returns (s': State)
    requires Reachable(s) && At(s, t, CheckExists)
    ensures var b := s.calls[t].branch;
            Moves(s, s', t, Call(b, if fails then Unlocking(Failed) else if b in s.databases then Publish else Create)) && SameData(s, s')
  {
    StepReachable(s, Exists(t, fails));
    s' := Apply(s, Exists(t, fails));
  }

  lemma TakeMake(s: State, t: nat, fails: bool, leaves: bool) returns (s': State)
    requires Reachable(s) && At(s, t, Create)
    ensures var b := s.calls[t].branch;
            && Moves(s, s', t, Call(b, if fails then Unlocking(Failed) else Publish)) && s'.provisioned == s.provisioned
            && s'.databases == s.databases + (if fails && !leaves then {} else {b})
            && s'.creations == s.creations + [Creation(b, b in s.databases, !fails)]
  {
    StepReachable(s, Make(t, fails, leaves));
    s' := Apply(s, Make(t, fails, leaves));
  }

  lemma TakeRecord(s: State, t: nat) returns (s': State)
    requires Reachable(s) && At(s, t, Publish)
    ensures var b := s.calls[t].branch;
            && Moves(s, s', t, Call(b, Unlocking(Nil))) && s'.provisioned == s.provisioned + {b}
            && s'.databases == s.databases && s'.creations == s.creations
  {
    StepReachable(s, Record(t));
    s' := Apply(s, Record(t));
  }

  lemma TakeUnlock(s: State, t: nat) returns (s': State)
    requires Reachable(s) && IsUnlocking(s, t)
    ensures Moves(s, s', t, Call(s.calls[t].branch, Leaving(s.calls[t].pc.result))) && SameData(s, s')
  {
    ReachableInvariant(s);
    assert LinkedCall(s, t);
    assert KL.Live(s.lock, t);
    StepReachable(s, Step.Unlock(t));
    s' := Apply(s, Step.Unlock(t));
  }

  lemma TakeLeave(s: State, t: nat) returns (s': State)
    requires Reachable(s) && IsLeaving(s, t)
    ensures Moves(s, s', t, Call(s.calls[t].branch, Returned(s.calls[t].pc.result))) && SameData(s, s')
  {
    ReachableInvariant(s);
    assert LinkedCall(s, t);
    assert KL.Live(s.lock, t);
    StepReachable(s, Step.Leave(t));
    s' := Apply(s, Step.Leave(t));
  }

  lemma MovesTwice(s: State, s': State, s'': State, t: nat, c: Call, d: Call)
    requires Moves(s, s', t, c) && Moves(s', s'', t, d) && SameData(s, s') && SameData(s', s'')
    ensures Moves(s, s'', t, d) && SameData(s, s'')
  {}

  /** A call that finds its branch in the cache */
  lemma TakeCached(s: State, t: nat, branch: string) returns (s': State)
    requires Reachable(s) && t !in s.calls && branch in s.provisioned
    ensures Moves(s, s', t, Call(branch, Returned(Nil))) && SameData(s, s') && branch in s.databases
  {
    ReachableInvariant(s);
    var a := TakeBegin(s, t, branch);
    s' := TakeFirstLookUp(a, t);
    MovesTwice(s, a, s', t, Call(branch, FastCheck), Call(branch, Returned(Nil)));
  }

  lemma TakeEntering(s: State, t: nat, branch: string) returns (s': State)
    requires Reachable(s) && t !in s.calls && branch !in s.provisioned
    ensures Moves(s, s', t, Call(branch, Entering)) && SameData(s, s') && s'.lock == s.lock
  {
    var a := TakeBegin(s, t, branch);
    s' := TakeFirstLookUp(a, t);
    MovesTwice(s, a, s', t, Call(branch, FastCheck), Call(branch, Entering));
  }

  lemma TakeLock(s: State, t: nat, branch: string, entry: nat) returns (s': State)
    requires Reachable(s) && At(s, t, Entering) && s.calls[t].branch == branch && branch !in s.lock.locks && entry !in s.lock.heap
    ensures Moves(s, s', t, Call(branch, DoubleCheck)) && SameData(s, s')
  {
    var a := TakeEnter(s, t, entry);
    s' := TakeAcquire(a, t);
    MovesTwice(s, a, s', t, Call(branch, Acquiring), Call(branch, DoubleCheck));
  }

  /** The way of a call that has its branch to itself, up to the first driver call */
  lemma TakeToDriver(s: State, t: nat, branch: string, entry: nat) returns (s': State)
    requires Reachable(s) && t !in s.calls && branch !in s.provisioned && branch !in s.lock.locks && entry !in s.lock.heap
    ensures Moves(s, s', t, Call(branch, CheckExists)) && SameData(s, s')
  {
    var a := TakeEntering(s, t, branch);
    var b := TakeLock(a, t, branch, entry);
    MovesTwice(s, a, b, t, Call(branch, Entering), Call(branch, DoubleCheck));
    s' := TakeSecondLookUp(b, t);
    MovesTwice(s, b, s', t, Call(branch, DoubleCheck), Call(branch, CheckExists));
  }

  /** The deferred unlock, and the return */
  lemma TakeReturn(s: State, t: nat, branch: string, result: Result) returns (s': State)
    requires Reachable(s) && t in s.calls && s.calls[t] == Call(branch, Unlocking(result))
    ensures Moves(s, s', t, Call(branch, Returned(result))) && SameData(s, s')
  {
    var a := TakeUnlock(s, t);
    s' := TakeLeave(a, t);
    MovesTwice(s, a, s', t, Call(branch, Leaving(result)), Call(branch, Returned(result)));
  }

  /** The proxy's set of provisioned branches and the driver's databases; `state` is the system they belong to,
      and stays one that the steps of the system lead to. */
  class Server {
    var provisioned: set<string>
    var databases: set<string>
    ghost var state: State

    ghost predicate Valid()
      reads this
    {
      Reachable(state) && state.provisioned == provisioned && state.databases == databases
    }

    constructor (databases: set<string>)
      ensures Valid() && state == Initial(databases)
    {
      provisioned, this.databases := {}, databases;
      state := Initial(databases);
      new;
      assert Reached(state, databases, []);
    }

    /** The driver calls, under the lock; a failing CreateBranch may leave a database behind. */
    method Provision(ghost t: nat, branch: string, existsFails: bool, createFails: bool, leaves: bool) returns (result: Result)
      requires Valid() && At(state, t, CheckExists) && state.calls[t].branch == branch
      modifies this
      ensures Valid() && state.calls == old(state.calls)[t := Call(branch, Unlocking(result))]
      ensures result == Nil <==> !existsFails && (branch in old(databases) || !createFails)
      ensures provisioned == old(provisioned) + if result == Nil then {branch} else {}
      ensures databases == old(databases) + if !existsFails && (!createFails || leaves) then {branch} else {}
      ensures state.creations == old(state.creations) +
                                 if existsFails || branch in old(databases) then [] else [Creation(branch, false, !createFails)]
    {
      state := TakeExists(state, t, existsFails);
      if existsFails { return Failed; }
      if branch !in databases {
        state := TakeMake(state, t, createFails, leaves);
        if createFails {
          if leaves { databases := databases + {branch}; }
          return Failed;
        }
        databases := databases + {branch};
      }
      state := TakeRecord(state, t);
      provisioned := provisioned + {branch};
      return Nil;
    }

    /** ensureBranchExists while no other call works on the branch: what it returns, and what it leaves behind. */
    method EnsureBranchExists(ghost t: nat, ghost entry: nat, branch: string, existsFails: bool, createFails: bool, leaves: bool)
      returns (result: Result)
      requires Valid() && t !in state.calls && branch !in state.lock.locks && entry !in state.lock.heap
      modifies this
      ensures Valid() && state.calls == old(state.calls)[t := Call(branch, Returned(result))]
      ensures result == Nil <==>
              branch in old(provisioned) || (!existsFails && (branch in old(databases) || !createFails))
      ensures provisioned == old(provisioned) + if result == Nil then {branch} else {}
      ensures old(databases) <= databases <= old(databases) + {branch}
      ensures result == Nil ==> branch in databases
    {
      if branch in provisioned {
        state := TakeCached(state, t, branch);
        return Nil;
      }
      state := TakeToDriver(state, t, branch, entry);
      result := Provision(t, branch, existsFails, createFails, leaves);
      state := TakeReturn(state, t, branch, result);
    }
  }
}
