/** internal/driver/sqlite/sqlite.go: CreateBranch and DeleteBranch of any number of processes on one directory.
    The copy marker `<target>.branchbase-copying`, made with O_EXCL, reserves a target. One step per file operation;
    a process may crash between any two of them. */
module SqliteCopy {

  /** Partial: being written, or left behind by a crash. Copied: written to the end. Verified: the source held still. */
  datatype File = Partial | Copied | Verified

  datatype Pc =
    | Inspect
    | Reserve
    | Marked
    | Cloning
    | Copying
    | Verify
    | Cleaning
    | Releasing(copied: bool)
    | LookForMarker
    | Remove
    | Returned(ok: bool)
    | Crashed

  datatype Process = Process(path: string, pc: Pc)

  /** `removed` records the targets that a DeleteBranch has removed since a copy into them was last begun. */
  datatype State = State(files: map<string, File>, markers: set<string>, processes: map<nat, Process>, removed: set<string>)

  datatype Step =
    | StartCreate(p: nat, path: string)
    | StatTarget(p: nat, fails: bool)
    | MakeMarker(p: nat, fails: bool)
    | CloseMarker(p: nat, fails: bool)
    | OpenTarget(p: nat)
    | EndCopy(p: nat, fails: bool)
    | CheckSource(p: nat, fails: bool)
    | RemoveTarget(p: nat)
    | RemoveMarker(p: nat, fails: bool)
    | StartDelete(p: nat, path: string)
    | StatMarker(p: nat, fails: bool)
    | Unlink(p: nat, fails: bool)
    | Crash(p: nat)

  predicate Enabled(s: State, e: Step) {
    if e.StartCreate? || e.StartDelete? then e.p !in s.processes
    else
      e.p in s.processes &&
      var pc := s.processes[e.p].pc;
      match e
      case StatTarget(_, _) => pc.Inspect?
      case MakeMarker(_, _) => pc.Reserve?
      case CloseMarker(_, _) => pc.Marked?
      case OpenTarget(_) => pc.Cloning? || pc.Copying?
      case EndCopy(_, fails) => pc.Copying? || (pc.Cloning? && fails)
      case CheckSource(_, _) => pc.Verify?
      case RemoveTarget(_) => pc.Cleaning?
      case RemoveMarker(_, _) => pc.Releasing?
      case StatMarker(_, _) => pc.LookForMarker?
      case Unlink(_, _) => pc.Remove?
      case Crash(_) => !pc.Returned?
      case _ => false
  }

  function PathOf(s: State, e: Step): string
    requires Enabled(s, e)
  {
    if e.StartCreate? || e.StartDelete? then e.path else s.processes[e.p].path
  }

  function NextPc(s: State, e: Step): Pc
    requires Enabled(s, e)
  {
    var path := PathOf(s, e);
    match e
    case StartCreate(_, _) => Inspect
    case StatTarget(_, fails) => if fails || path in s.files then Returned(false) else Reserve
    case MakeMarker(_, fails) => if fails || path in s.markers then Returned(false) else Marked
    case CloseMarker(_, fails) => if fails then Returned(false) else Cloning
    case OpenTarget(_) => Copying
    case EndCopy(_, fails) => if fails then Cleaning else Verify
    case CheckSource(_, fails) => if fails then Cleaning else Releasing(true)
    case RemoveTarget(_) => Releasing(false)
    case RemoveMarker(_, fails) => Returned(!fails && s.processes[e.p].pc.copied)
    case StartDelete(_, _) => LookForMarker
    case StatMarker(_, fails) => if fails || path in s.markers then Returned(false) else Remove
    case Unlink(_, fails) => Returned(!fails)
    case Crash(_) => Crashed
  }

  function NextFiles(s: State, e: Step): map<string, File>
    requires Enabled(s, e)
  {
    var path := PathOf(s, e);
    match e
    case OpenTarget(_) => s.files[path := Partial]
    case EndCopy(_, fails) => if !fails && path in s.files then s.files[path := Copied] else s.files
    case CheckSource(_, fails) => if !fails && path in s.files then s.files[path := Verified] else s.files
    case RemoveTarget(_) => s.files - {path}
    case Unlink(_, fails) => if fails then s.files else s.files - {path}
    case _ => s.files
  }

  function NextMarkers(s: State, e: Step): set<string>
    requires Enabled(s, e)
  {
    var path := PathOf(s, e);
    match e
    case MakeMarker(_, fails) => if fails then s.markers else s.markers + {path}
    case CloseMarker(_, fails) => if fails then s.markers - {path} else s.markers
    case RemoveMarker(_, fails) => if fails then s.markers else s.markers - {path}
    case _ => s.markers
  }

  function Apply(s: State, e: Step): State
    requires Enabled(s, e)
  {
    var path := PathOf(s, e);
    State(NextFiles(s, e),
          NextMarkers(s, e),
          s.processes[e.p := Process(path, NextPc(s, e))],
          if e.Unlink? && !e.fails then s.removed + {path}
          else if e.OpenTarget? then s.removed - {path}
          else s.removed)
  }

  // ---- The invariant ----

  /** The process has made the marker and not yet tried to remove it. */
  predicate Holds(pc: Pc) {
    pc.Marked? || pc.Cloning? || pc.Copying? || pc.Verify? || pc.Cleaning? || pc.Releasing?
  }

  predicate HoldsPath(s: State, p: nat, path: string) {
    p in s.processes && s.processes[p].path == path && Holds(s.processes[p].pc)
  }

  ghost predicate Reserved(s: State) {
    && (forall p, path :: HoldsPath(s, p, path) ==> path in s.markers)
    && (forall p, q, path :: HoldsPath(s, p, path) && HoldsPath(s, q, path) ==> p == q)
  }

  ghost predicate Complete(s: State) {
    forall path :: path in s.files && path !in s.markers ==> s.files[path].Verified?
  }

  /** The target is missing because a DeleteBranch came between. */
  predicate Gone(s: State, path: string) {
    path !in s.files && path in s.removed
  }

  predicate Is(s: State, path: string, file: File) {
    path in s.files && s.files[path] == file
  }

  /** What each holder of a marker knows about its target */
  predicate KnowsTarget(s: State, p: nat)
    requires p in s.processes
  {
    var path, pc := s.processes[p].path, s.processes[p].pc;
    match pc
    case Marked => path in s.files ==> s.files[path].Verified?
    case Cloning => path in s.files ==> s.files[path].Verified?
    case Copying => Is(s, path, Partial) || Gone(s, path)
    case Verify => Is(s, path, Copied) || Gone(s, path)
    case Releasing(copied) => if copied then Is(s, path, Verified) || Gone(s, path) else path !in s.files
    case _ => true
  }

  ghost predicate Invariant(s: State) {
    Reserved(s) && Complete(s) && forall p :: p in s.processes ==> KnowsTarget(s, p)
  }

  /** A directory as it is found: complete databases, and perhaps markers and copies that crashes left behind. */
  ghost predicate Initial(s: State) {
    s.processes == map[] && s.removed == {} && Complete(s)
  }

  lemma KeepsReserved(s: State, e: Step)
    requires Reserved(s) && Enabled(s, e)
    ensures Reserved(Apply(s, e))
  {
    var s' := Apply(s, e);
    forall p, path | HoldsPath(s', p, path) ensures path in s'.markers {
      if p != e.p { assert HoldsPath(s, p, path); }
      if e.p in s.processes && Holds(s.processes[e.p].pc) { assert HoldsPath(s, e.p, s.processes[e.p].path); }
    }
    forall p, q, path | HoldsPath(s', p, path) && HoldsPath(s', q, path) ensures p == q {
      assert p == e.p || HoldsPath(s, p, path);
      assert q == e.p || HoldsPath(s, q, path);
      if e.p in s.processes && Holds(s.processes[e.p].pc) { assert HoldsPath(s, e.p, s.processes[e.p].path); }
    }
  }

  /** Another process's target is changed only by a DeleteBranch, which removes it. */
  lemma OthersTarget(s: State, e: Step, p: nat)
    requires Reserved(s) && Enabled(s, e) && p in s.processes && p != e.p && Holds(s.processes[p].pc)
    ensures var path := s.processes[p].path;
            (path in Apply(s, e).files && path in s.files && Apply(s, e).files[path] == s.files[path]) ||
            (path !in Apply(s, e).files && (path !in s.files || path in Apply(s, e).removed))
  {
    var path := s.processes[p].path;
    assert HoldsPath(s, p, path);
    if PathOf(s, e) == path && e.p in s.processes && Holds(s.processes[e.p].pc) {
      assert HoldsPath(s, e.p, path);
    }
  }

  lemma KeepsKnowledge(s: State, e: Step, p: nat)
    requires Invariant(s) && Enabled(s, e) && p in Apply(s, e).processes
    ensures KnowsTarget(Apply(s, e), p)
  {
    if p != e.p {
      if Holds(s.processes[p].pc) { OthersTarget(s, e, p); }
      assert KnowsTarget(s, p);
    } else if p in s.processes {
      assert KnowsTarget(s, p);
    }
  }

  /** A file is written, and a marker removed, only by the process that holds the marker. */
  lemma KeepsComplete(s: State, e: Step)
    requires Invariant(s) && Enabled(s, e)
    ensures Complete(Apply(s, e))
  {
    if e.p in s.processes {
      assert KnowsTarget(s, e.p);
      if Holds(s.processes[e.p].pc) { assert HoldsPath(s, e.p, s.processes[e.p].path); }
    }
  }

  lemma KeepsInvariant(s: State, e: Step)
    requires Invariant(s) && Enabled(s, e)
    ensures Invariant(Apply(s, e))
  {
    KeepsReserved(s, e);
    KeepsComplete(s, e);
    forall p | p in Apply(s, e).processes ensures KnowsTarget(Apply(s, e), p) {
      KeepsKnowledge(s, e, p);
    }
  }

  // ---- Runs ----

  /** `s` is reached from some directory; `run` lists the steps, the last one first. */
  ghost predicate Reached(s: State, run: seq<Step>)
    decreases |run|
  {
    if run == [] then Initial(s)
    else exists p :: Reached(p, run[1..]) && Enabled(p, run[0]) && s == Apply(p, run[0])
  }

  lemma {:induction false} ReachedInvariant(s: State, run: seq<Step>)
    requires Reached(s, run)
    ensures Invariant(s)
    decreases |run|
  {
    if run != [] {
      var p :| Reached(p, run[1..]) && Enabled(p, run[0]) && s == Apply(p, run[0]);
      ReachedInvariant(p, run[1..]);
      KeepsInvariant(p, run[0]);
    }
  }

  /** A target that is there without its marker is a completed and verified copy, whatever crashed before. */
  lemma UnmarkedIsComplete(s: State, run: seq<Step>, path: string)
    requires Reached(s, run)
    requires path in s.files && path !in s.markers
    ensures s.files[path].Verified?
  {
    ReachedInvariant(s, run);
  }

  /** At most one process at a time has a target reserved, and so at most one copies into it. */
  lemma OneCopier(s: State, run: seq<Step>, p: nat, q: nat, path: string)
    requires Reached(s, run)
    requires HoldsPath(s, p, path) && HoldsPath(s, q, path)
    ensures p == q && path in s.markers
  {
    ReachedInvariant(s, run);
  }

  /** When CreateBranch is about to return nil, its target is a verified copy, unless a DeleteBranch has removed it since
      its copy began. */
  lemma CreateSucceeds(s: State, run: seq<Step>, p: nat)
    requires Reached(s, run) && Enabled(s, RemoveMarker(p, false))
    requires Apply(s, RemoveMarker(p, false)).processes[p].pc == Returned(true)
    ensures var s', path := Apply(s, RemoveMarker(p, false)), s.processes[p].path;
            path !in s'.markers && (Is(s', path, Verified) || Gone(s', path))
  {
    ReachedInvariant(s, run);
    assert KnowsTarget(s, p);
  }

  /** A CreateBranch that finds its target already there returns an error: it changes no file and no marker, and takes no
      further step. */
  lemma ExistingTargetIsRefused(s: State, p: nat, fails: bool)
    requires Enabled(s, StatTarget(p, fails)) && s.processes[p].path in s.files
    ensures var s' := Apply(s, StatTarget(p, fails));
            && s'.files == s.files && s'.markers == s.markers && s'.processes[p].pc == Returned(false)
            && forall e: Step :: e.p == p ==> !Enabled(s', e)
  {
    var s' := Apply(s, StatTarget(p, fails));
    forall e: Step | e.p == p ensures !Enabled(s', e) {}
  }

  /** So does a DeleteBranch that finds a copy marker, and a CreateBranch that finds one. */
  lemma MarkedTargetIsRefused(s: State, p: nat, e: Step)
    requires e == StatMarker(p, false) || e == MakeMarker(p, false)
    requires Enabled(s, e) && s.processes[p].path in s.markers
    ensures var s' := Apply(s, e);
            && s'.files == s.files && s'.markers == s.markers && s'.processes[p].pc == Returned(false)
            && forall e': Step :: e'.p == p ==> !Enabled(s', e')
  {
    var s' := Apply(s, e);
    forall e': Step | e'.p == p ensures !Enabled(s', e') {}
  }

  /** A step changes no file and no marker but those of its own target. */
  lemma OnlyOwnTarget(s: State, e: Step, path: string)
    requires Enabled(s, e) && path != PathOf(s, e)
    ensures var s' := Apply(s, e);
            && (path in s'.markers <==> path in s.markers) && (path in s'.files <==> path in s.files)
            && (path in s.files ==> s'.files[path] == s.files[path])
  {}

  /** A CreateBranch that fails after its reservation leaves no target behind. */
  lemma FailedCreateLeavesNothing(s: State, run: seq<Step>, p: nat)
    requires Reached(s, run) && p in s.processes && s.processes[p].pc == Releasing(false)
    ensures s.processes[p].path !in s.files
  {
    ReachedInvariant(s, run);
    assert KnowsTarget(s, p);
  }
}
