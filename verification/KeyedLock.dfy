/** internal/proxy/keyed_mutex.go: a mutex per key whose entries disappear when nobody uses them.
    One event per critical section of the code; any number of callers interleave them. */
module KeyedLock {

  /** A call of Lock: it waits for the entry's mutex, holds it, has released it but still counts, or is over. */
  datatype Phase = Waiting | Holding | Released | Done

  /** `once` is the flag of the sync.Once that the unlock function closes over. */
  datatype Ticket<K, E> = Ticket(key: K, entry: E, phase: Phase, once: bool)

  datatype Entry = Entry(refCount: int, locked: bool)

  /** `locks` is the map from keys to entries, `heap` every entry ever made, `tickets` every call ever made. */
  datatype State<K, E, T> = State(locks: map<K, E>, heap: map<E, Entry>, tickets: map<T, Ticket<K, E>>)

  /** Enter: Lock's section under `mu`. Acquire: the entry's mutex is taken. Unlock: any call of the unlock function,
      which releases the mutex if the flag is not set. Leave: the rest of what that call does. */
  datatype Event<K, E, T> =
    | Enter(t: T, key: K, made: E)
    | Acquire(t: T)
    | Unlock(t: T)
    | Leave(t: T)

  predicate In<K, E, T(!new)>(s: State<K, E, T>, t: T, phase: Phase) {
    t in s.tickets && s.tickets[t].phase == phase
  }

  predicate Live<K, E, T(!new)>(s: State<K, E, T>, t: T) {
    t in s.tickets && !s.tickets[t].phase.Done?
  }

  predicate Enabled<K, E, T(!new)>(s: State<K, E, T>, e: Event<K, E, T>) {
    match e
    case Enter(t, k, made) => t !in s.tickets && (if k in s.locks then s.locks[k] in s.heap else made !in s.heap)
    case Acquire(t) => In(s, t, Waiting) && s.tickets[t].entry in s.heap && !s.heap[s.tickets[t].entry].locked
    case Unlock(t) => t in s.tickets && !s.tickets[t].phase.Waiting? && s.tickets[t].entry in s.heap
    case Leave(t) => In(s, t, Released) && s.tickets[t].entry in s.heap
  }

  function Move<K, E, T(!new)>(s: State<K, E, T>, t: T, phase: Phase): map<T, Ticket<K, E>>
    requires t in s.tickets
  {
    s.tickets[t := s.tickets[t].(phase := phase)]
  }

  function Apply<K, E, T(!new)>(s: State<K, E, T>, e: Event<K, E, T>): State<K, E, T>
    requires Enabled(s, e)
  {
    match e
    case Enter(t, k, made) =>
      var locks := if k in s.locks then s.locks else s.locks[k := made];
      var entry := if k in s.locks then s.heap[locks[k]] else Entry(0, false);
      State(locks,
            s.heap[locks[k] := entry.(refCount := entry.refCount + 1)],
            s.tickets[t := Ticket(k, locks[k], Waiting, false)])
    case Acquire(t) =>
      var i := s.tickets[t].entry;
      State(s.locks, s.heap[i := s.heap[i].(locked := true)], Move(s, t, Holding))
    case Unlock(t) =>
      var i := s.tickets[t].entry;
      if s.tickets[t].once then s
      else State(s.locks, s.heap[i := s.heap[i].(locked := false)], s.tickets[t := s.tickets[t].(phase := Released, once := true)])
    case Leave(t) =>
      var i := s.tickets[t].entry;
      var refs := s.heap[i].refCount - 1;
      State(if refs <= 0 then s.locks - {s.tickets[t].key} else s.locks,
            s.heap[i := s.heap[i].(refCount := refs)],
            Move(s, t, Done))
  }

  // ---- The invariant ----

  /** The calls that count on entry `e`: entered and not yet decremented */
  function Users<K, E(==), T(!new)>(s: State<K, E, T>, e: E): set<T> {
    set t | t in s.tickets && Live(s, t) && s.tickets[t].entry == e
  }

  /** The entry a live call works on is the one the map holds for its key. */
  ghost predicate Attached<K, E, T(!new)>(s: State<K, E, T>) {
    forall t :: Live(s, t) ==> s.tickets[t].key in s.locks && s.locks[s.tickets[t].key] == s.tickets[t].entry
  }

  /** The map's entries exist, are in use, and are shared by no two keys. */
  ghost predicate Keyed<K(!new), E, T(!new)>(s: State<K, E, T>) {
    && (forall k :: k in s.locks ==> s.locks[k] in s.heap && s.heap[s.locks[k]].refCount > 0)
    && (forall k, j :: k in s.locks && j in s.locks && s.locks[k] == s.locks[j] ==> k == j)
  }

  /** Every entry counts its users. */
  ghost predicate Counted<K, E, T(!new)>(s: State<K, E, T>) {
    forall e :: e in s.heap ==> s.heap[e].refCount == |Users(s, e)|
  }

  /** An entry is locked by exactly one call, and that call's ticket says so. */
  ghost predicate Exclusive<K, E, T(!new)>(s: State<K, E, T>) {
    && (forall t :: In(s, t, Holding) ==> s.tickets[t].entry in s.heap && s.heap[s.tickets[t].entry].locked)
    && (forall t, u :: In(s, t, Holding) && In(s, u, Holding) && s.tickets[t].entry == s.tickets[u].entry ==> t == u)
    && (forall e :: e in s.heap && s.heap[e].locked ==> exists t :: In(s, t, Holding) && s.tickets[t].entry == e)
  }

  /** The flag is set exactly when the mutex has been released. */
  ghost predicate Flagged<K, E, T(!new)>(s: State<K, E, T>) {
    forall t :: t in s.tickets ==> (s.tickets[t].once <==> s.tickets[t].phase.Released? || s.tickets[t].phase.Done?)
  }

  ghost predicate Invariant<K(!new), E, T(!new)>(s: State<K, E, T>) {
    Attached(s) && Keyed(s) && Counted(s) && Exclusive(s) && Flagged(s)
  }

  function Initial<K, E, T>(): State<K, E, T> {
    State(map[], map[], map[])
  }

  lemma InitialInvariant<K(!new), E, T(!new)>()
    ensures Invariant(Initial<K, E, T>())
  {}

  lemma UsersOf<K, E, T(!new)>(s: State<K, E, T>, s': State<K, E, T>, t: T, e: E)
    requires t in s'.tickets
    requires forall u :: u != t ==> (u in s.tickets <==> u in s'.tickets) && (u in s.tickets ==> s'.tickets[u] == s.tickets[u])
    ensures Users(s', e) == Users(s, e) - {t} + if Live(s', t) && s'.tickets[t].entry == e then {t} else {}
  {}

  /** A caller that stays in, or stays out, is counted as before. */
  lemma SameUsers<K, E, T(!new)>(s: State<K, E, T>, s': State<K, E, T>, i: E)
    requires s.tickets.Keys == s'.tickets.Keys
    requires forall t :: t in s.tickets ==> Live(s', t) == Live(s, t) && s'.tickets[t].entry == s.tickets[t].entry
    ensures Users(s', i) == Users(s, i)
  {}

  /** The counter of every entry stays equal to the number of its users. */
  lemma KeepsCount<K, E, T(!new)>(s: State<K, E, T>, e: Event<K, E, T>, i: E)
    requires Flagged(s) && Enabled(s, e) && i in Apply(s, e).heap
    requires i in s.heap ==> s.heap[i].refCount == |Users(s, i)|
    requires i !in s.heap ==> Users(s, i) == {}
    ensures Apply(s, e).heap[i].refCount == |Users(Apply(s, e), i)|
  {
    match e
    case Enter(t, k, made) => EnterKeepsCount(s, t, k, made, i);
    case Leave(t) => LeaveKeepsCount(s, t, i);
    case Acquire(_) => SameUsers(s, Apply(s, e), i);
    case Unlock(_) => SameUsers(s, Apply(s, e), i);
  }

  lemma EnterKeepsCount<K, E, T(!new)>(s: State<K, E, T>, t: T, k: K, made: E, i: E)
    requires var e := Enter(t, k, made); Enabled(s, e) && i in Apply(s, e).heap
    requires i in s.heap ==> s.heap[i].refCount == |Users(s, i)|
    requires i !in s.heap ==> Users(s, i) == {}
    ensures Apply(s, Enter(t, k, made)).heap[i].refCount == |Users(Apply(s, Enter(t, k, made)), i)|
  {
    UsersOf(s, Apply(s, Enter(t, k, made)), t, i);
  }

  lemma LeaveKeepsCount<K, E, T(!new)>(s: State<K, E, T>, t: T, i: E)
    requires Enabled(s, Leave(t)) && i in s.heap && s.heap[i].refCount == |Users(s, i)|
    ensures Apply(s, Leave(t)).heap[i].refCount == |Users(Apply(s, Leave(t)), i)|
  {
    UsersOf(s, Apply(s, Leave(t)), t, i);
    if s.tickets[t].entry == i {
      assert t in Users(s, i);
    }
  }

  lemma NoUsers<K, E, T(!new)>(s: State<K, E, T>, i: E)
    requires Attached(s) && i !in s.heap
    requires forall k :: k in s.locks ==> s.locks[k] in s.heap
    ensures Users(s, i) == {}
  {
    assert forall t :: t in Users(s, i) ==> Live(s, t) && s.tickets[t].entry in s.heap;
  }

  lemma KeepsCounts<K(!new), E, T(!new)>(s: State<K, E, T>, e: Event<K, E, T>)
    requires Attached(s) && Keyed(s) && Counted(s) && Flagged(s) && Enabled(s, e)
    ensures Counted(Apply(s, e))
  {
    var s' := Apply(s, e);
    forall i | i in s'.heap
      ensures s'.heap[i].refCount == |Users(s', i)|
    {
      if i !in s.heap { NoUsers(s, i); }
      KeepsCount(s, e, i);
    }
  }

  /** Only a counter that reaches zero can lose its key, and it does. */
  lemma KeepsPositive<K(!new), E, T(!new)>(s: State<K, E, T>, e: Event<K, E, T>, k: K)
    requires Attached(s) && Keyed(s) && Enabled(s, e) && k in Apply(s, e).locks
    ensures var s' := Apply(s, e); s'.locks[k] in s'.heap && s'.heap[s'.locks[k]].refCount > 0
  {
    if e.Leave? {
      assert Live(s, e.t) && s.locks[s.tickets[e.t].key] == s.tickets[e.t].entry;
    }
  }

  lemma KeepsApart<K(!new), E, T(!new)>(s: State<K, E, T>, e: Event<K, E, T>, k: K, j: K)
    requires Keyed(s) && Enabled(s, e)
    requires var locks := Apply(s, e).locks; k in locks && j in locks && locks[k] == locks[j]
    ensures k == j
  {}

  lemma EnterKeepsAttached<K(!new), E, T(!new)>(s: State<K, E, T>, t: T, k: K, made: E)
    requires Attached(s) && Enabled(s, Enter(t, k, made))
    ensures Attached(Apply(s, Enter(t, k, made)))
  {
    var s' := Apply(s, Enter(t, k, made));
    forall u | Live(s', u)
      ensures s'.tickets[u].key in s'.locks && s'.locks[s'.tickets[u].key] == s'.tickets[u].entry
    {
      if u != t {
        assert Live(s, u);
      }
    }
  }

  /** Taking and releasing an entry's mutex changes no key and brings no caller in. */
  lemma SameCallers<K(!new), E, T(!new)>(s: State<K, E, T>, s': State<K, E, T>)
    requires Attached(s) && s'.locks == s.locks
    requires forall u :: Live(s', u) ==> Live(s, u) && s'.tickets[u].key == s.tickets[u].key && s'.tickets[u].entry == s.tickets[u].entry
    ensures Attached(s')
  {
    forall u | Live(s', u)
      ensures s'.tickets[u].key in s'.locks && s'.locks[s'.tickets[u].key] == s'.tickets[u].entry
    {
      assert Live(s, u);
    }
  }

  lemma AcquireKeepsAttached<K(!new), E, T(!new)>(s: State<K, E, T>, t: T)
    requires Attached(s) && Enabled(s, Acquire(t))
    ensures Attached(Apply(s, Acquire(t)))
  {
    SameCallers(s, Apply(s, Acquire(t)));
  }

  lemma UnlockKeepsAttached<K(!new), E, T(!new)>(s: State<K, E, T>, t: T)
    requires Attached(s) && Flagged(s) && Enabled(s, Unlock(t))
    ensures Attached(Apply(s, Unlock(t)))
  {
    if !s.tickets[t].once {
      SameCallers(s, Apply(s, Unlock(t)));
    }
  }

  lemma KeepsAttached<K(!new), E, T(!new)>(s: State<K, E, T>, e: Event<K, E, T>)
    requires Attached(s) && Keyed(s) && Counted(s) && Flagged(s) && Enabled(s, e)
    ensures Attached(Apply(s, e))
  {
    match e
    case Enter(t, k, made) => EnterKeepsAttached(s, t, k, made);
    case Acquire(t) => AcquireKeepsAttached(s, t);
    case Unlock(t) => UnlockKeepsAttached(s, t);
    case Leave(t) => LeaveKeepsAttached(s, t);
  }

  /** The last user takes the entry away; while another call still counts on it, it stays. */
  lemma LeaveKeepsAttached<K(!new), E, T(!new)>(s: State<K, E, T>, t: T)
    requires Attached(s) && Keyed(s) && Counted(s) && Enabled(s, Leave(t))
    ensures Attached(Apply(s, Leave(t)))
  {
    var s' := Apply(s, Leave(t));
    var i := s.tickets[t].entry;
    assert t in Users(s, i);
    forall u | Live(s', u)
      ensures s'.tickets[u].key in s'.locks && s'.locks[s'.tickets[u].key] == s'.tickets[u].entry
    {
      assert Live(s, u) && u != t;
      if s.tickets[u].key == s.tickets[t].key {
        assert {t, u} <= Users(s, i);
        Subset({t, u}, Users(s, i));
      }
    }
  }

  lemma Subset<T>(a: set<T>, b: set<T>)
    requires a <= b
    ensures |a| <= |b|
  {
    assert b == a + (b - a);
  }

  lemma KeepsHolders<K(!new), E, T(!new)>(s: State<K, E, T>, e: Event<K, E, T>)
    requires Exclusive(s) && Flagged(s) && Enabled(s, e)
    ensures var s' := Apply(s, e);
            && (forall t :: In(s', t, Holding) ==> s'.tickets[t].entry in s'.heap && s'.heap[s'.tickets[t].entry].locked)
            && (forall t, u :: In(s', t, Holding) && In(s', u, Holding) && s'.tickets[t].entry == s'.tickets[u].entry ==> t == u)
  {
    var s' := Apply(s, e);
    forall t | In(s', t, Holding)
      ensures s'.tickets[t].entry in s'.heap && s'.heap[s'.tickets[t].entry].locked
    {
      if !e.Acquire? || t != e.t {
        assert In(s, t, Holding);
        HolderStays(s, e, t);
      }
    }
    forall t, u | In(s', t, Holding) && In(s', u, Holding) && s'.tickets[t].entry == s'.tickets[u].entry
      ensures t == u
    {
      assert (e.Acquire? && t == e.t) || In(s, t, Holding);
      assert (e.Acquire? && u == e.t) || In(s, u, Holding);
    }
  }

  /** An unlock that takes effect is the holder's own, so no other holder loses its entry. */
  lemma HolderStays<K(!new), E, T(!new)>(s: State<K, E, T>, e: Event<K, E, T>, t: T)
    requires Exclusive(s) && Flagged(s) && Enabled(s, e) && In(s, t, Holding) && In(Apply(s, e), t, Holding)
    ensures var s' := Apply(s, e); s'.tickets[t].entry in s'.heap && s'.heap[s'.tickets[t].entry].locked
  {
    if e.Unlock? && !s.tickets[e.t].once {
      assert In(s, e.t, Holding);
    }
  }

  lemma KeepsLocked<K(!new), E, T(!new)>(s: State<K, E, T>, e: Event<K, E, T>, i: E)
    requires Exclusive(s) && Flagged(s) && Enabled(s, e) && i in Apply(s, e).heap && Apply(s, e).heap[i].locked
    ensures exists t :: In(Apply(s, e), t, Holding) && Apply(s, e).tickets[t].entry == i
  {
    var s' := Apply(s, e);
    if e.Acquire? && s.tickets[e.t].entry == i {
      assert In(s', e.t, Holding);
    } else {
      assert i in s.heap && s.heap[i].locked;
      var t :| In(s, t, Holding) && s.tickets[t].entry == i;
      assert In(s', t, Holding);
    }
  }

  lemma KeepsExclusive<K(!new), E, T(!new)>(s: State<K, E, T>, e: Event<K, E, T>)
    requires Exclusive(s) && Flagged(s) && Enabled(s, e)
    ensures Exclusive(Apply(s, e))
  {
    var s' := Apply(s, e);
    KeepsHolders(s, e);
    forall i | i in s'.heap && s'.heap[i].locked
      ensures exists t :: In(s', t, Holding) && s'.tickets[t].entry == i
    {
      KeepsLocked(s, e, i);
    }
  }

  lemma KeepsFlagged<K(!new), E, T(!new)>(s: State<K, E, T>, e: Event<K, E, T>)
    requires Flagged(s) && Enabled(s, e)
    ensures Flagged(Apply(s, e))
  {}

  lemma KeepsKeyed<K(!new), E, T(!new)>(s: State<K, E, T>, e: Event<K, E, T>)
    requires Attached(s) && Keyed(s) && Enabled(s, e)
    ensures Keyed(Apply(s, e))
  {
    var s' := Apply(s, e);
    forall k | k in s'.locks ensures s'.locks[k] in s'.heap && s'.heap[s'.locks[k]].refCount > 0 {
      KeepsPositive(s, e, k);
    }
    forall k, j | k in s'.locks && j in s'.locks && s'.locks[k] == s'.locks[j] ensures k == j {
      KeepsApart(s, e, k, j);
    }
  }

  /** Every event of every caller keeps the invariant. */
  lemma KeepsInvariant<K(!new), E, T(!new)>(s: State<K, E, T>, e: Event<K, E, T>)
    requires Invariant(s) && Enabled(s, e)
    ensures Invariant(Apply(s, e))
  {
    KeepsCounts(s, e);
    KeepsKeyed(s, e);
    KeepsAttached(s, e);
    KeepsExclusive(s, e);
    KeepsFlagged(s, e);
  }

  // ---- Runs ----

  /** `s` is reached by some interleaving of calls; `run` lists the events, the last one first. */
  ghost predicate Reached<K(!new), E(!new), T(!new)>(s: State<K, E, T>, run: seq<Event<K, E, T>>)
    decreases |run|
  {
    if run == [] then s == Initial<K, E, T>()
    else exists p :: Reached(p, run[1..]) && Enabled(p, run[0]) && s == Apply(p, run[0])
  }

  lemma {:induction false} ReachedInvariant<K(!new), E(!new), T(!new)>(s: State<K, E, T>, run: seq<Event<K, E, T>>)
    requires Reached(s, run)
    ensures Invariant(s)
    decreases |run|
  {
    if run == [] {
      InitialInvariant<K, E, T>();
    } else {
      var p :| Reached(p, run[1..]) && Enabled(p, run[0]) && s == Apply(p, run[0]);
      ReachedInvariant(p, run[1..]);
      KeepsInvariant(p, run[0]);
    }
  }

  /** At most one caller holds a key at any time. */
  lemma MutualExclusion<K(!new), E(!new), T(!new)>(s: State<K, E, T>, run: seq<Event<K, E, T>>, t: T, u: T)
    requires Reached(s, run)
    requires In(s, t, Holding) && In(s, u, Holding) && s.tickets[t].key == s.tickets[u].key
    ensures t == u
  {
    ReachedInvariant(s, run);
    assert Live(s, t) && Live(s, u);
  }

  /** The callers inside the critical region of key `k`, from entering to decrementing */
  function Inside<K(==), E, T(!new)>(s: State<K, E, T>, k: K): set<T> {
    set t | t in s.tickets && Live(s, t) && s.tickets[t].key == k
  }

  /** An entry exists for exactly the keys somebody is inside, and counts exactly those callers. */
  lemma EntryCountsCallers<K(!new), E(!new), T(!new)>(s: State<K, E, T>, run: seq<Event<K, E, T>>, k: K)
    requires Reached(s, run)
    ensures k in s.locks <==> Inside(s, k) != {}
    ensures k in s.locks ==> s.locks[k] in s.heap && s.heap[s.locks[k]].refCount == |Inside(s, k)|
    ensures forall t :: t in Inside(s, k) ==> k in s.locks && s.tickets[t].entry == s.locks[k]
  {
    ReachedInvariant(s, run);
    if k in s.locks {
      var e := s.locks[k];
      forall t | t in s.tickets
        ensures t in Users(s, e) <==> t in Inside(s, k)
      {
        assert Live(s, t) ==> s.tickets[t].key in s.locks;
      }
      assert Users(s, e) == Inside(s, k);
    }
    if Inside(s, k) != {} {
      var t :| t in Inside(s, k);
      assert Live(s, t);
    }
  }

  /** The map is empty exactly when no caller is inside: no entry leaks. */
  lemma EmptyIffIdle<K(!new), E(!new), T(!new)>(s: State<K, E, T>, run: seq<Event<K, E, T>>)
    requires Reached(s, run)
    ensures s.locks == map[] <==> forall t :: !Live(s, t)
  {
    if s.locks != map[] {
      var k :| k in s.locks;
      EntryCountsCallers(s, run, k);
      var t :| t in Inside(s, k);
      assert Live(s, t);
    }
    forall t | Live(s, t)
      ensures s.locks != map[]
    {
      EntryCountsCallers(s, run, s.tickets[t].key);
      assert t in Inside(s, s.tickets[t].key);
    }
  }

  /** A caller leaving takes no other caller's entry out of the map. */
  lemma LeaveSparesOthers<K(!new), E(!new), T(!new)>(s: State<K, E, T>, run: seq<Event<K, E, T>>, t: T, u: T)
    requires Reached(s, run) && Enabled(s, Leave(t))
    requires u != t && Live(s, u)
    ensures var after := Apply(s, Leave(t)).locks;
            s.tickets[u].key in after && after[s.tickets[u].key] == s.tickets[u].entry
  {
    ReachedInvariant(s, run);
    LeaveKeepsAttached(s, t);
    assert Live(Apply(s, Leave(t)), u);
  }

  /** The caller holds the same entry in `s'` as in `s`, and the entry is locked. */
  predicate StillHolds<K, E, T(!new)>(s: State<K, E, T>, s': State<K, E, T>, u: T)
    requires In(s, u, Holding)
  {
    && In(s', u, Holding) && s'.tickets[u] == s.tickets[u]
    && s.tickets[u].entry in s'.heap && s'.heap[s.tickets[u].entry].locked
  }

  /** However often the unlock function is called, it releases the mutex once, while its own caller holds it:
      a repeated call changes nothing, not even when another caller holds the key by then. */
  lemma UnlockTakesEffectOnce<K(!new), E(!new), T(!new)>(s: State<K, E, T>, run: seq<Event<K, E, T>>, t: T)
    requires Reached(s, run) && Enabled(s, Unlock(t))
    ensures s.tickets[t].once <==> !In(s, t, Holding)
    ensures s.tickets[t].once ==> Apply(s, Unlock(t)) == s
    ensures !s.tickets[t].once ==> s.heap[s.tickets[t].entry].locked && Apply(s, Unlock(t)).tickets[t].once
    ensures forall u :: u != t && In(s, u, Holding) ==>
                          StillHolds(s, Apply(s, Unlock(t)), u)
  {
    ReachedInvariant(s, run);
    KeepsInvariant(s, Unlock(t));
    forall u | u != t && In(s, u, Holding)
      ensures StillHolds(s, Apply(s, Unlock(t)), u)
    {
      assert In(Apply(s, Unlock(t)), u, Holding);
    }
  }

  // ---- The code ----

  /** sync.Once, as far as the unlock function uses it */
  class Once {
    var done: bool

    constructor ()
      ensures !done
    {
      done := false;
    }
  }

  class LockEntry {
    var refCount: int
    var locked: bool

    constructor ()
      ensures refCount == 0 && !locked
    {
      refCount, locked := 0, false;
    }
  }

  /** The mutex object. Each section is the step of the same name, so KeepsInvariant holds of it.
      `entries` and `tickets` only record what was made; the code does not have them. */
  class KeyedMutex<K(==,!new), T(!new)> {
    var locks: map<K, LockEntry>
    ghost var entries: set<LockEntry>
    ghost var tickets: map<T, Ticket<K, LockEntry>>

    ghost function Abs(): State<K, LockEntry, T>
      reads this, entries
    {
      State(locks, map e | e in entries :: Entry(e.refCount, e.locked), tickets)
    }

    constructor ()
      ensures Abs() == Initial<K, LockEntry, T>()
    {
      locks := map[];
      entries, tickets := {}, map[];
    }

    /** Lock, up to the release of `mu` */
    method Enter(ghost t: T, key: K) returns (entry: LockEntry)
      requires t !in tickets && (key in locks ==> locks[key] in entries)
      modifies this, entries
      ensures Enabled(old(Abs()), Event.Enter(t, key, entry))
      ensures Abs() == Apply(old(Abs()), Event.Enter(t, key, entry))
      ensures entry in entries && fresh(entries - old(entries))
    {
      if key in locks {
        entry := locks[key];
      } else {
        entry := new LockEntry();
        locks := locks[key := entry];
        entries := entries + {entry};
      }
      entry.refCount := entry.refCount + 1;
      tickets := tickets[t := Ticket(key, entry, Waiting, false)];
    }

    /** entry.mu.Lock() returning, and the making of the unlock function with its flag */
    method Acquire(ghost t: T, entry: LockEntry) returns (once: Once)
      requires In(Abs(), t, Waiting) && tickets[t].entry == entry && entry in entries && !entry.locked
      modifies this, entry
      ensures entries == old(entries) && fresh(once) && !once.done
      ensures Abs() == Apply(old(Abs()), Event.Acquire(t))
    {
      entry.locked := true;
      tickets := tickets[t := tickets[t].(phase := Holding)];
      once := new Once();
    }

    /** A call of the unlock function, up to entry.mu.Unlock(): only the first one goes on to Leave. */
    method Unlock(ghost t: T, entry: LockEntry, once: Once) returns (first: bool)
      requires Enabled(Abs(), Event.Unlock(t)) && tickets[t].entry == entry && entry in entries && once.done == tickets[t].once
      modifies this, entry, once
      ensures entries == old(entries)
      ensures Abs() == Apply(old(Abs()), Event.Unlock(t))
      ensures first == !old(once.done) && once.done && tickets[t].once
    {
      first := !once.done;
      if first {
        once.done := true;
        entry.locked := false;
        tickets := tickets[t := tickets[t].(phase := Released, once := true)];
      }
    }

    /** The rest of the unlock function, under `mu` */
    method Leave(ghost t: T, key: K, entry: LockEntry)
      requires In(Abs(), t, Released) && tickets[t].key == key && tickets[t].entry == entry && entry in entries
      modifies this, entry
      ensures entries == old(entries)
      ensures Abs() == Apply(old(Abs()), Event.Leave(t))
    {
      entry.refCount := entry.refCount - 1;
      if entry.refCount <= 0 {
        locks := locks - {key};
      }
      tickets := tickets[t := tickets[t].(phase := Done)];
    }

    /** keyCount */
    method KeyCount() returns (n: nat)
      requires Invariant(Abs())
      ensures n == |locks|
      ensures n == 0 <==> forall t :: !Live(Abs(), t)
    {
      n := |locks|;
      ghost var s := Abs();
      if n == 0 {
        forall t ensures !Live(s, t) {}
      } else {
        ghost var k :| k in s.locks;
        assert Users(s, s.locks[k]) != {};
        ghost var t :| t in Users(s, s.locks[k]);
        assert Live(s, t);
      }
    }
  }
}
