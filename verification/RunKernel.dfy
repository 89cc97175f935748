// The run kernel as interleaved steps: any number of executors, stop requesters
// and creators act on one run directory, and any of them may crash between any
// two durable actions. Leases are exclusive until released or the holder crashes;
// an atomic file replacement is one step.
module RunKernel {
  import opened Common
  import opened RunSnapshots

  type Pid = nat

  // What a handler does with its attempt.
  datatype Outcome =
    | ReturnsSucceeded(result: Option<int>, verifies: bool)
    | ReturnsPaused(pause: HandlerPause, verifies: bool)
    | ReturnsFailed(error: RunError)
    | ReturnsOther
    | Raises
    | RaisesStopped

  // What follows an accepted write.
  datatype Then = Leave | Resume | Handle

  // What a stop requester holds while it sees to the token: nothing, the run lease, or
  // the run lease of a run that it then pauses.
  datatype Role = Unlocked | Locked | Pausing

  datatype Proc =
    // executors, holding the run lease
    | ReadRun(allowFailed: bool)
    | ReadToken(snap: Snapshot)
    | ResumeRun(snap: Snapshot)
    | FirstCheck(snap: Snapshot)
    | Handler(snap: Snapshot)
    | LastCheck(snap: Snapshot, outcome: Outcome)
    | ReadStop(snap: Snapshot)
    // compare-and-swap by a lease holder: read and validate, then replace
    | Swap(prev: Snapshot, next: Snapshot, after: Then)
    | Replace(prev: Snapshot, next: Snapshot, after: Then)
    // stop requesters
    | AskRead(request: StopRequest)
    | AskLease(request: StopRequest)
    | AskWait(request: StopRequest)
    | AskLocked(request: StopRequest)
    // the token of the snapshot's attempt: its lease is awaited, then held
    | AskToken(snap: Snapshot, request: StopRequest, role: Role)
    | CheckToken(snap: Snapshot, request: StopRequest, role: Role)
    | WriteToken(snap: Snapshot, request: StopRequest, role: Role)
    // creators
    | WantCreate(run: int)
    | CheckCreate(run: int)
    | WriteCreate(run: int)

  // tokens maps an attempt to its stop request, tokenLeases to the holder of the token
  // file's own lease. history, cleared, selfStopped are
  // records for the statements below: all snapshots written, the attempts whose
  // last check found no token, and those whose handler stopped by itself.
  datatype State = State(snap: Option<Snapshot>, tokens: map<nat, StopRequest>, tokenLeases: map<nat, Pid>,
                         lease: Option<Pid>, createLease: Option<Pid>, procs: map<Pid, Proc>, history: seq<Snapshot>,
                         cleared: set<nat>, selfStopped: set<nat>)

  datatype Event =
    | Execute(pid: Pid, allowFailed: bool)
    | RequestStop(pid: Pid, request: StopRequest)
    | Create(pid: Pid, run: int)
    | Act(pid: Pid, outcome: Outcome, giveUp: bool)
    | Crash(pid: Pid)

  const EMPTY := State(None, map[], map[], None, None, map[], [], {}, {})

  // ----- Snapshots the kernel offers ---------------------------------------------------

  function StoppedSnapshot(s: Snapshot, request: Option<StopRequest>): Snapshot {
    s.(revision := s.revision + 1, status := Paused, awaiting := Some(ExecutionStopped(s.attempt, request)),
       interrupted := s.status.Running? || s.interrupted)
  }

  function RecoveredSnapshot(s: Snapshot): Snapshot {
    s.(revision := s.revision + 1, status := Paused, awaiting := Some(ExecutionInterrupted(s.attempt)),
       interrupted := true)
  }

  function RunningSnapshot(s: Snapshot): Snapshot {
    s.(revision := s.revision + 1, status := Running, attempt := s.attempt + 1, awaiting := None, result := None,
       error := None, epoch := if s.status.Failed? then s.epoch + 1 else s.epoch)
  }

  function FailedSnapshot(s: Snapshot, error: RunError): Snapshot {
    s.(revision := s.revision + 1, status := Failed, error := Some(error))
  }

  // After the last check: results that do not verify count as the handler raising.
  function FinalSnapshot(s: Snapshot, outcome: Outcome): Snapshot {
    match outcome
    case ReturnsSucceeded(result, verifies) =>
      if result.Some? && !verifies then FailedSnapshot(s, Unhandled)
      else s.(revision := s.revision + 1, status := Succeeded, result := result)
    case ReturnsPaused(pause, verifies) =>
      if !ValidPause(pause) || (pause.hasRequest && !verifies) then FailedSnapshot(s, Unhandled)
      else s.(revision := s.revision + 1, status := Paused, awaiting := Some(ByHandler(pause)))
    case ReturnsFailed(error) => FailedSnapshot(s, if ValidError(error) then error else Unhandled)
    case _ => FailedSnapshot(s, Unhandled)
  }

  // ----- Steps --------------------------------------------------------------------------

  predicate HoldsLease(p: Proc) {
    || p.ReadRun? || p.ReadToken? || p.ResumeRun? || p.FirstCheck? || p.Handler? || p.LastCheck? || p.ReadStop?
    || p.Swap? || p.Replace? || p.AskLocked? || (AtToken(p) && !p.role.Unlocked?)
  }

  predicate AtToken(p: Proc) {
    p.AskToken? || p.CheckToken? || p.WriteToken?
  }

  predicate HoldsTokenLease(p: Proc) {
    p.CheckToken? || p.WriteToken?
  }

  predicate HoldsCreateLease(p: Proc) {
    p.CheckCreate? || p.WriteCreate?
  }

  // The process ends, by return, exception or crash, and its leases are free.
  function Exit(s: State, p: Pid): State {
    s.(procs := s.procs - {p}, lease := if s.lease == Some(p) then None else s.lease,
       createLease := if s.createLease == Some(p) then None else s.createLease, tokenLeases := Freed(s.tokenLeases, p))
  }

  function Freed(leases: map<nat, Pid>, p: Pid): map<nat, Pid> {
    map a | a in leases && leases[a] != p :: leases[a]
  }

  function Goto(s: State, p: Pid, proc: Proc): State {
    s.(procs := s.procs[p := proc])
  }

  function Token(s: State, attempt: nat): Option<StopRequest> {
    if attempt in s.tokens then Some(s.tokens[attempt]) else None
  }

  // The token is there and its lease is given back; a pending run is then paused.
  function Requested(s: State, p: Pid, snap: Snapshot, role: Role, request: StopRequest): State {
    if role.Pausing?
    then Goto(s, p, Swap(snap, StoppedSnapshot(snap, Some(request)), Leave)).(tokenLeases := Freed(s.tokenLeases, p))
    else Exit(s, p)
  }

  function ExecutorStep(s: State, p: Pid, outcome: Outcome, giveUp: bool): State
    requires p in s.procs
  {
    match s.procs[p]
    case ReadRun(allowFailed) =>
      if s.snap.None? then Exit(s, p)
      else
        var snap := s.snap.value;
        if snap.status.Succeeded? || (snap.status.Failed? && !allowFailed) then Exit(s, p)
        else if snap.status.Failed? && giveUp then Exit(s, p)
        else Goto(s, p, ReadToken(snap))
    case ReadToken(snap) =>
      var token := Token(s, snap.attempt);
      if !snap.status.Paused? && token.Some? then Goto(s, p, Swap(snap, StoppedSnapshot(snap, token), Leave))
      else if snap.status.Running? then Goto(s, p, Swap(snap, RecoveredSnapshot(snap), Resume))
      else Goto(s, p, ResumeRun(snap))
    case ResumeRun(snap) =>
      if giveUp then Exit(s, p) else Goto(s, p, Swap(snap, RunningSnapshot(snap), Handle))
    case FirstCheck(snap) =>
      if snap.attempt in s.tokens then Goto(s, p, ReadStop(snap)) else Goto(s, p, Handler(snap))
    case Handler(snap) =>
      if outcome.Raises? then Goto(s, p, Swap(snap, FailedSnapshot(snap, Unhandled), Leave))
      else if outcome.RaisesStopped? then
        Goto(s, p, ReadStop(snap)).(selfStopped := s.selfStopped + {snap.attempt})
      else Goto(s, p, LastCheck(snap, outcome))
    case LastCheck(snap, o) =>
      if snap.attempt in s.tokens then Goto(s, p, ReadStop(snap))
      else Goto(s, p, Swap(snap, FinalSnapshot(snap, o), Leave)).(cleared := s.cleared + {snap.attempt})
    case ReadStop(snap) =>
      Goto(s, p, Swap(snap, StoppedSnapshot(snap, Token(s, snap.attempt)), Leave))
    case Swap(prev, next, after) =>
      if s.snap.Some? && s.snap.value.revision == prev.revision && Accepts(s.snap.value, next)
      then Goto(s, p, Replace(prev, next, after)) else Exit(s, p)
    case Replace(prev, next, after) =>
      var written := s.(snap := Some(next), history := s.history + [next]);
      (match after
       case Leave => Exit(written, p)
       case Resume => Goto(written, p, ResumeRun(next))
       case Handle => Goto(written, p, FirstCheck(next)))
    case _ => s
  }

  function RequesterStep(s: State, p: Pid, giveUp: bool): State
    requires p in s.procs
  {
    match s.procs[p]
    case AskRead(request) =>
      if s.snap.None? || s.snap.value.status.Succeeded? || s.snap.value.status.Failed? then Exit(s, p)
      else if s.snap.value.status.Pending? then Goto(s, p, AskLease(request))
      else Goto(s, p, AskToken(s.snap.value, request, Unlocked))
    case AskLease(request) =>
      if s.lease.None? then Goto(s, p, AskLocked(request)).(lease := Some(p)) else Goto(s, p, AskWait(request))
    case AskWait(request) =>
      if s.snap.None? then Exit(s, p)
      else
        var current := s.snap.value;
        if current.status.Pending? then (if giveUp then Exit(s, p) else s)
        else if current.status.Running? || current.status.Paused? then Goto(s, p, AskToken(current, request, Unlocked))
        else Exit(s, p)
    case AskLocked(request) =>
      if s.snap.None? || s.snap.value.status.Succeeded? || s.snap.value.status.Failed? then Exit(s, p)
      else Goto(s, p, AskToken(s.snap.value, request, if s.snap.value.status.Paused? then Locked else Pausing))
    case AskToken(snap, request, role) =>
      if snap.attempt in s.tokenLeases then s
      else Goto(s, p, CheckToken(snap, request, role)).(tokenLeases := s.tokenLeases[snap.attempt := p])
    case CheckToken(snap, request, role) =>
      if snap.attempt in s.tokens then Requested(s, p, snap, role, s.tokens[snap.attempt])
      else Goto(s, p, WriteToken(snap, request, role))
    case WriteToken(snap, request, role) =>
      Requested(s.(tokens := s.tokens[snap.attempt := request]), p, snap, role, request)
    case _ => s
  }

  function CreatorStep(s: State, p: Pid): State
    requires p in s.procs
  {
    match s.procs[p]
    case WantCreate(run) =>
      if s.createLease.None? then Goto(s, p, CheckCreate(run)).(createLease := Some(p)) else s
    case CheckCreate(run) => if s.snap.Some? then Exit(s, p) else Goto(s, p, WriteCreate(run))
    case WriteCreate(run) =>
      Exit(s.(snap := Some(Initial(run)), history := s.history + [Initial(run)]), p)
    case _ => s
  }

  function Step(s: State, e: Event): State {
    match e
    case Execute(p, allowFailed) =>
      if p in s.procs || s.lease.Some? then s else Goto(s, p, ReadRun(allowFailed)).(lease := Some(p))
    case RequestStop(p, request) => if p in s.procs then s else Goto(s, p, AskRead(request))
    case Create(p, run) => if p in s.procs then s else Goto(s, p, WantCreate(run))
    case Crash(p) => Exit(s, p)
    case Act(p, outcome, giveUp) =>
      if p !in s.procs then s
      else if IsCreator(s.procs[p]) then CreatorStep(s, p)
      else if IsRequester(s.procs[p]) then RequesterStep(s, p, giveUp)
      else ExecutorStep(s, p, outcome, giveUp)
  }

  predicate IsCreator(p: Proc) {
    p.WantCreate? || p.CheckCreate? || p.WriteCreate?
  }

  predicate IsRequester(p: Proc) {
    p.AskRead? || p.AskLease? || p.AskWait? || p.AskLocked? || AtToken(p)
  }

  function StateAfter(s: State, events: seq<Event>): State
    decreases |events|
  {
    if events == [] then s else Step(StateAfter(s, events[..|events| - 1]), events[|events| - 1])
  }

  // ----- The invariant ----------------------------------------------------------------------

  // A lease is held by the one process whose position says so.
  ghost predicate LeasesFit(s: State) {
    && (forall p :: p in s.procs && HoldsLease(s.procs[p]) <==> s.lease == Some(p))
    && (forall p :: p in s.procs && HoldsCreateLease(s.procs[p]) <==> s.createLease == Some(p))
  }

  ghost predicate HistoryFits(s: State) {
    if s.snap.None? then s.history == []
    else IsHistory(s.history) && s.history[|s.history| - 1] == s.snap.value
  }

  // A stop carries the attempt's own token, or none if the handler stopped by itself.
  predicate StopFits(s: State, attempt: nat, request: Option<StopRequest>) {
    if request.Some? then Token(s, attempt) == request else attempt in s.selfStopped
  }

  predicate IsStop(prev: Snapshot, next: Snapshot) {
    && next.awaiting.Some? && next.awaiting.value.ExecutionStopped?
    && next == StoppedSnapshot(prev, next.awaiting.value.request)
  }

  // next is something the kernel offers over prev, with the evidence it needs.
  ghost predicate Offered(s: State, prev: Snapshot, next: Snapshot, after: Then) {
    match after
    case Resume => prev.status.Running? && next == RecoveredSnapshot(prev)
    case Handle => !prev.status.Running? && !prev.status.Succeeded? && next == RunningSnapshot(prev)
    case Leave =>
      || (IsStop(prev, next) && !prev.status.Paused? && !prev.status.Succeeded?
          && (prev.status.Failed? ==> prev.attempt in s.tokens)
          && StopFits(s, prev.attempt, next.awaiting.value.request))
      || (prev.status.Running? && next == FailedSnapshot(prev, Unhandled))
      || (prev.status.Running? && prev.attempt in s.cleared && exists o :: next == FinalSnapshot(prev, o))
  }

  ghost predicate ProcFits(s: State, proc: Proc) {
    match proc
    case ReadToken(snap) => s.snap == Some(snap) && !snap.status.Succeeded?
    case ResumeRun(snap) => s.snap == Some(snap) && !snap.status.Running? && !snap.status.Succeeded?
    case FirstCheck(snap) => s.snap == Some(snap) && snap.status.Running?
    case Handler(snap) => s.snap == Some(snap) && snap.status.Running?
    case LastCheck(snap, _) => s.snap == Some(snap) && snap.status.Running?
    case ReadStop(snap) =>
      s.snap == Some(snap) && snap.status.Running? && (snap.attempt in s.tokens || snap.attempt in s.selfStopped)
    case Swap(prev, next, after) => s.snap == Some(prev) && Offered(s, prev, next, after)
    case Replace(prev, next, after) => s.snap == Some(prev) && Offered(s, prev, next, after) && Accepts(prev, next)
    case AskToken(snap, _, role) => TokenRoleFits(s, snap, role)
    case CheckToken(snap, _, role) => TokenRoleFits(s, snap, role)
    case WriteToken(snap, _, role) => TokenRoleFits(s, snap, role)
    case WriteCreate(_) => s.snap.None?
    case _ => true
  }

  // A requester under the run lease knows the current snapshot.
  predicate TokenRoleFits(s: State, snap: Snapshot, role: Role) {
    role.Unlocked? || (s.snap == Some(snap) && !snap.status.Succeeded? && !snap.status.Failed?
                       && (role.Pausing? ==> !snap.status.Paused?))
  }

  // A written outcome was cleared by its attempt's last check; a written stop has
  // its token.
  predicate RecordFits(s: State, h: Snapshot) {
    && (h.status.Succeeded? || (h.error.Some? && h.error.value.Reported?) || (h.awaiting.Some? && h.awaiting.value.ByHandler?)
        ==> h.attempt in s.cleared)
    && (h.awaiting.Some? && h.awaiting.value.ExecutionStopped? ==>
          h.awaiting.value.attempt == h.attempt && StopFits(s, h.attempt, h.awaiting.value.request))
    && InterruptionFits(h)
  }

  // A written interruption names its own attempt.
  predicate InterruptionFits(h: Snapshot) {
    h.awaiting.Some? && h.awaiting.value.ExecutionInterrupted? ==> h.awaiting.value.attempt == h.attempt && h.interrupted
  }

  ghost predicate Inv(s: State) {
    Fits(s) && TokensFit(s)
  }

  // A token's lease is held by the one process that is at it, and whoever is about to
  // write found no token.
  ghost predicate TokensFit(s: State) {
    && (forall a :: a in s.tokenLeases ==> IsAtToken(s, s.tokenLeases[a], a))
    && (forall p :: p in s.procs && HoldsTokenLease(s.procs[p]) ==> LeasesToken(s, p, s.procs[p].snap.attempt))
  }

  predicate IsAtToken(s: State, p: Pid, attempt: nat) {
    p in s.procs && HoldsTokenLease(s.procs[p]) && s.procs[p].snap.attempt == attempt
  }

  predicate LeasesToken(s: State, p: Pid, attempt: nat)
    requires p in s.procs
  {
    && attempt in s.tokenLeases && s.tokenLeases[attempt] == p
    && (s.procs[p].WriteToken? ==> attempt !in s.tokens)
  }

  ghost predicate Fits(s: State) {
    && LeasesFit(s) && HistoryFits(s)
    && (forall p :: p in s.procs ==> ProcFits(s, s.procs[p]))
    && (forall h :: h in s.history ==> RecordFits(s, h))
  }

  // ----- Every step keeps it -------------------------------------------------------------

  ghost predicate Grows(s: State, t: State) {
    && s.cleared <= t.cleared && s.selfStopped <= t.selfStopped
    && forall n :: n in s.tokens ==> n in t.tokens && t.tokens[n] == s.tokens[n]
  }

  lemma {:induction false} StepGrows(s: State, e: Event)
    requires TokensFit(s)
    ensures Grows(s, Step(s, e))
  {
    match e
    case Act(p, outcome, giveUp) =>
      if p in s.procs && !IsCreator(s.procs[p]) {
        if IsRequester(s.procs[p]) {
          RequesterGrows(s, p, giveUp);
        } else {
          ExecutorGrows(s, p, outcome, giveUp);
        }
      }
    case _ =>
  }

  lemma {:induction false} RequesterGrows(s: State, p: Pid, giveUp: bool)
    requires p in s.procs && TokensFit(s)
    ensures Grows(s, RequesterStep(s, p, giveUp))
  {
    assert HoldsTokenLease(s.procs[p]) ==> LeasesToken(s, p, s.procs[p].snap.attempt);
    hide TokensFit, Freed, StoppedSnapshot;
  }

  lemma {:induction false} ExecutorGrows(s: State, p: Pid, outcome: Outcome, giveUp: bool)
    requires p in s.procs
    ensures Grows(s, ExecutorStep(s, p, outcome, giveUp))
  {
  }

  lemma {:induction false} FitsStay(s: State, t: State, proc: Proc)
    requires Grows(s, t) && s.snap == t.snap && ProcFits(s, proc)
    ensures ProcFits(t, proc)
  {
  }

  lemma {:induction false} RecordsStay(s: State, t: State)
    requires Grows(s, t) && forall h :: h in s.history ==> RecordFits(s, h)
    ensures forall h :: h in s.history ==> RecordFits(t, h)
  {
  }

  // What an accepted write records.
  lemma {:induction false} WrittenFits(s: State, prev: Snapshot, next: Snapshot, after: Then)
    requires Offered(s, prev, next, after) && Accepts(prev, next)
    ensures RecordFits(s, next)
  {
  }

  // A process whose view of the snapshot matters holds the run lease.
  lemma {:induction false} OnlyHoldersDepend(s: State, t: State, proc: Proc)
    requires ProcFits(s, proc) && !HoldsLease(proc) && !proc.WriteCreate?
    ensures ProcFits(t, proc)
  {
  }

  // A step of p that leaves the snapshot alone.
  lemma {:induction false} QuietStepKeeps(s: State, t: State, p: Pid)
    requires Fits(s) && Grows(s, t) && t.snap == s.snap && t.history == s.history && LeasesFit(t)
    requires forall q :: q in t.procs && q != p ==> q in s.procs && t.procs[q] == s.procs[q]
    requires p in t.procs ==> ProcFits(t, t.procs[p])
    ensures Fits(t)
  {
    RecordsStay(s, t);
    forall q | q in t.procs ensures ProcFits(t, t.procs[q]) {
      if q != p {
        FitsStay(s, t, s.procs[q]);
      }
    }
  }

  lemma {:induction false} ExitKeeps(s: State, p: Pid)
    requires Fits(s)
    ensures Fits(Exit(s, p))
  {
    QuietStepKeeps(s, Exit(s, p), p);
  }

  // p moves on without touching leases or the snapshot.
  lemma {:induction false} GotoKeeps(s: State, t: State, p: Pid, proc: Proc)
    requires Fits(s) && Grows(s, t) && t.snap == s.snap && t.history == s.history
    requires p in s.procs && HoldsLease(proc) == HoldsLease(s.procs[p]) && HoldsCreateLease(proc) == HoldsCreateLease(s.procs[p])
    requires t.procs == s.procs[p := proc] && t.lease == s.lease && t.createLease == s.createLease
    requires ProcFits(t, proc)
    ensures Fits(t)
  {
    hide Grows, ProcFits, HistoryFits, RecordFits;
    QuietStepKeeps(s, t, p);
  }

  lemma {:induction false} SwapKeeps(s: State, p: Pid)
    requires Fits(s) && p in s.procs && s.procs[p].Swap?
    ensures Fits(ExecutorStep(s, p, Raises, false))
  {
    var t := ExecutorStep(s, p, Raises, false);
    assert ProcFits(s, s.procs[p]);
    if t == Exit(s, p) {
      ExitKeeps(s, p);
    } else {
      FitsStay(s, t, s.procs[p]);
      QuietStepKeeps(s, t, p);
    }
  }

  lemma {:induction false} ReplaceKeeps(s: State, p: Pid)
    requires Fits(s) && p in s.procs && s.procs[p].Replace?
    ensures Fits(ExecutorStep(s, p, Raises, false))
  {
    var Replace(prev, next, after) := s.procs[p];
    var t := ExecutorStep(s, p, Raises, false);
    assert ProcFits(s, s.procs[p]);
    AppendKeepsHistory(s.history, next);
    WrittenFits(s, prev, next, after);
    forall h | h in t.history ensures RecordFits(t, h) {
      assert h in s.history || h == next;
      assert RecordFits(s, h);
    }
    forall q | q in t.procs ensures ProcFits(t, t.procs[q]) {
      if q != p {
        assert ProcFits(s, s.procs[q]);
        OnlyHoldersDepend(s, t, s.procs[q]);
      }
    }
  }

  lemma {:induction false} ExecutorKeeps(s: State, p: Pid, outcome: Outcome, giveUp: bool)
    requires Fits(s) && p in s.procs && !IsCreator(s.procs[p]) && !IsRequester(s.procs[p])
    ensures Fits(ExecutorStep(s, p, outcome, giveUp))
  {
    var t := ExecutorStep(s, p, outcome, giveUp);
    if s.procs[p].Swap? {
      SwapKeeps(s, p);
    } else if s.procs[p].Replace? {
      ReplaceKeeps(s, p);
    } else if t == Exit(s, p) {
      ExitKeeps(s, p);
    } else {
      ExecutorMoves(s, p, outcome, giveUp);
      GotoKeeps(s, t, p, t.procs[p]);
    }
  }

  // Where an executor goes next fits the state it leaves.
  lemma {:induction false} ExecutorMoves(s: State, p: Pid, outcome: Outcome, giveUp: bool)
    requires Fits(s) && p in s.procs && !IsCreator(s.procs[p]) && !IsRequester(s.procs[p])
    requires !s.procs[p].Swap? && !s.procs[p].Replace?
    requires ExecutorStep(s, p, outcome, giveUp) != Exit(s, p)
    ensures var t := ExecutorStep(s, p, outcome, giveUp);
      && Grows(s, t) && t.snap == s.snap && t.history == s.history && t.lease == s.lease && t.createLease == s.createLease
      && p in t.procs && t.procs == s.procs[p := t.procs[p]] && HoldsLease(t.procs[p]) && !HoldsCreateLease(t.procs[p])
      && ProcFits(t, t.procs[p])
  {
    assert ProcFits(s, s.procs[p]);
    hide Fits, HistoryFits, LeasesFit, RecordFits, ProcFits;
    ExecutorGrows(s, p, outcome, giveUp);
    ExecutorGoes(s, p, outcome, giveUp);
    hide Grows, Offered;
    NextProcFits(s, p, outcome, giveUp);
  }

  // Unless it exits, an executor moves on and keeps its lease.
  ghost predicate GoesOn(s: State, t: State, p: Pid) {
    && t.snap == s.snap && t.history == s.history && t.lease == s.lease && t.createLease == s.createLease
    && p in t.procs && t.procs == s.procs[p := t.procs[p]] && HoldsLease(t.procs[p]) && !HoldsCreateLease(t.procs[p])
  }

  lemma {:induction false} ExecutorGoes(s: State, p: Pid, outcome: Outcome, giveUp: bool)
    requires p in s.procs && !IsCreator(s.procs[p]) && !IsRequester(s.procs[p])
    requires !s.procs[p].Swap? && !s.procs[p].Replace?
    requires ExecutorStep(s, p, outcome, giveUp) != Exit(s, p)
    ensures GoesOn(s, ExecutorStep(s, p, outcome, giveUp), p)
  {
    if s.procs[p].ReadRun? || s.procs[p].ReadToken? || s.procs[p].ResumeRun? {
      ReaderGoes(s, p, outcome, giveUp);
    } else {
      AttemptGoes(s, p, outcome, giveUp);
    }
  }

  lemma {:induction false} ReaderGoes(s: State, p: Pid, outcome: Outcome, giveUp: bool)
    requires p in s.procs && (s.procs[p].ReadRun? || s.procs[p].ReadToken? || s.procs[p].ResumeRun?)
    requires ExecutorStep(s, p, outcome, giveUp) != Exit(s, p)
    ensures GoesOn(s, ExecutorStep(s, p, outcome, giveUp), p)
  {
    hide Exit, StoppedSnapshot, RecoveredSnapshot, RunningSnapshot;
  }

  lemma {:induction false} AttemptGoes(s: State, p: Pid, outcome: Outcome, giveUp: bool)
    requires p in s.procs
    requires s.procs[p].FirstCheck? || s.procs[p].Handler? || s.procs[p].LastCheck? || s.procs[p].ReadStop?
    ensures GoesOn(s, ExecutorStep(s, p, outcome, giveUp), p)
  {
    hide StoppedSnapshot, FailedSnapshot, FinalSnapshot;
  }

  lemma {:induction false} NextProcFits(s: State, p: Pid, outcome: Outcome, giveUp: bool)
    requires p in s.procs && !IsCreator(s.procs[p]) && !IsRequester(s.procs[p])
    requires !s.procs[p].Swap? && !s.procs[p].Replace? && ProcFits(s, s.procs[p])
    requires p in ExecutorStep(s, p, outcome, giveUp).procs && ExecutorStep(s, p, outcome, giveUp) != Exit(s, p)
    ensures var t := ExecutorStep(s, p, outcome, giveUp); ProcFits(t, t.procs[p])
  {
    match s.procs[p]
    case LastCheck(snap, o) =>
      var t := ExecutorStep(s, p, outcome, giveUp);
      assert t.procs[p].Swap? ==> t.procs[p].next == FinalSnapshot(snap, o);
    case _ =>
  }

  lemma {:induction false} RequesterKeeps(s: State, p: Pid, giveUp: bool)
    requires Inv(s) && p in s.procs && IsRequester(s.procs[p])
    ensures Fits(RequesterStep(s, p, giveUp))
  {
    var t := RequesterStep(s, p, giveUp);
    assert ProcFits(s, s.procs[p]);
    RequesterGrows(s, p, giveUp);
    if HoldsTokenLease(s.procs[p]) {
      TokenStepKeeps(s, p, giveUp);
    } else {
      hide Grows, RecordFits;
      if t == Exit(s, p) {
        ExitKeeps(s, p);
      } else {
        RequesterMoves(s, p, giveUp);
        QuietStepKeeps(s, t, p);
      }
    }
  }

  // Before the token, a requester leaves everything but leases alone.
  lemma {:induction false} RequesterMoves(s: State, p: Pid, giveUp: bool)
    requires Fits(s) && p in s.procs && IsRequester(s.procs[p]) && !HoldsTokenLease(s.procs[p])
    requires RequesterStep(s, p, giveUp) != Exit(s, p)
    ensures var t := RequesterStep(s, p, giveUp);
      && t.snap == s.snap && t.history == s.history && LeasesFit(t)
      && p in t.procs && t.procs == s.procs[p := t.procs[p]] && ProcFits(t, t.procs[p])
  {
    assert ProcFits(s, s.procs[p]) && LeasesFit(s);
    hide Fits, Offered, RecordFits, HistoryFits;
    RequesterGoes(s, p, giveUp);
    hide ProcFits, RequesterStep, LeasesFit, Exit;
    LeasesFollow(s, RequesterStep(s, p, giveUp), p);
  }

  lemma {:induction false} LeasesFollow(s: State, t: State, p: Pid)
    requires LeasesFit(s) && p in s.procs && !HoldsCreateLease(s.procs[p]) && t.createLease == s.createLease
    requires p in t.procs && t.procs == s.procs[p := t.procs[p]] && !HoldsCreateLease(t.procs[p])
    requires (t.lease == s.lease && HoldsLease(t.procs[p]) == HoldsLease(s.procs[p]))
             || (s.lease.None? && t.lease == Some(p) && HoldsLease(t.procs[p]))
    ensures LeasesFit(t)
  {
    hide HoldsLease, HoldsCreateLease;
  }

  lemma {:induction false} RequesterGoes(s: State, p: Pid, giveUp: bool)
    requires p in s.procs && IsRequester(s.procs[p]) && !HoldsTokenLease(s.procs[p]) && ProcFits(s, s.procs[p])
    requires RequesterStep(s, p, giveUp) != Exit(s, p)
    ensures var t := RequesterStep(s, p, giveUp);
      && t.snap == s.snap && t.history == s.history && t.createLease == s.createLease
      && p in t.procs && t.procs == s.procs[p := t.procs[p]] && ProcFits(t, t.procs[p]) && !HoldsCreateLease(t.procs[p])
      && ((t.lease == s.lease && HoldsLease(t.procs[p]) == HoldsLease(s.procs[p]))
          || (s.lease.None? && t.lease == Some(p) && HoldsLease(t.procs[p])))
  {
    hide Offered, Exit, Requested;
    if s.procs[p].AskToken? {
      TakingGoes(s, p, giveUp);
    }
  }

  lemma {:induction false} TakingGoes(s: State, p: Pid, giveUp: bool)
    requires p in s.procs && s.procs[p].AskToken? && ProcFits(s, s.procs[p])
    ensures var t := RequesterStep(s, p, giveUp);
      && t == s.(procs := t.procs, tokenLeases := t.tokenLeases)
      && p in t.procs && t.procs == s.procs[p := t.procs[p]] && ProcFits(t, t.procs[p])
      && HoldsLease(t.procs[p]) == HoldsLease(s.procs[p]) && AtToken(t.procs[p])
  {
    hide Offered;
  }

  lemma {:induction false} TokenStepKeeps(s: State, p: Pid, giveUp: bool)
    requires Fits(s) && p in s.procs && HoldsTokenLease(s.procs[p]) && Grows(s, RequesterStep(s, p, giveUp))
    ensures Fits(RequesterStep(s, p, giveUp))
  {
    var t := RequesterStep(s, p, giveUp);
    assert ProcFits(s, s.procs[p]);
    var snap, role := s.procs[p].snap, s.procs[p].role;
    if s.procs[p].CheckToken? && snap.attempt !in s.tokens {
      GotoKeeps(s, t, p, t.procs[p]);
    } else {
      var request := if s.procs[p].CheckToken? then s.tokens[snap.attempt] else s.procs[p].request;
      var asked := s.(tokens := s.tokens[snap.attempt := request]);
      assert s.procs[p].CheckToken? ==> asked == s;
      assert t == Requested(asked, p, snap, role, request);
      RequestedKeeps(s, asked, p, request);
    }
  }

  lemma {:induction false} RequestedKeeps(s: State, asked: State, p: Pid, request: StopRequest)
    requires Fits(s) && p in s.procs && HoldsTokenLease(s.procs[p])
    requires asked == s.(tokens := s.tokens[s.procs[p].snap.attempt := request]) && Grows(s, asked)
    ensures Fits(Requested(asked, p, s.procs[p].snap, s.procs[p].role, request))
  {
    var snap, role := s.procs[p].snap, s.procs[p].role;
    var t := Requested(asked, p, snap, role, request);
    assert ProcFits(s, s.procs[p]);
    assert Grows(s, t);
    if role.Pausing? {
      StopIsOffered(t, snap, request);
    }
    hide Offered, RecordFits, HistoryFits;
    QuietStepKeeps(s, t, p);
  }

  // The stop a requester offers over a pending or running snapshot.
  lemma {:induction false} StopIsOffered(s: State, snap: Snapshot, request: StopRequest)
    requires !snap.status.Paused? && !snap.status.Succeeded? && Token(s, snap.attempt) == Some(request)
    ensures Offered(s, snap, StoppedSnapshot(snap, Some(request)), Leave)
  {
  }

  lemma {:induction false} CreatorKeeps(s: State, p: Pid)
    requires Fits(s) && p in s.procs && IsCreator(s.procs[p])
    ensures Fits(CreatorStep(s, p))
  {
    assert ProcFits(s, s.procs[p]);
    if s.procs[p].WriteCreate? {
      CreationKeeps(s, p);
    } else if CreatorStep(s, p) == Exit(s, p) {
      ExitKeeps(s, p);
    } else {
      hide Freed, Exit, RecordFits, HistoryFits;
      QuietStepKeeps(s, CreatorStep(s, p), p);
    }
  }

  // The first snapshot: nobody holding the run lease has seen any.
  lemma {:induction false} CreationKeeps(s: State, p: Pid)
    requires Fits(s) && p in s.procs && s.procs[p].WriteCreate?
    ensures Fits(CreatorStep(s, p))
  {
    var t := CreatorStep(s, p);
    assert ProcFits(s, s.procs[p]);
    forall q | q in t.procs ensures ProcFits(t, t.procs[q]) {
      assert ProcFits(s, s.procs[q]);
    }
    hide Freed;
  }

  // A process appears; an executor takes the free run lease with it.
  lemma {:induction false} StartKeeps(s: State, p: Pid, proc: Proc)
    requires Fits(s) && (proc.ReadRun? || proc.AskRead? || proc.WantCreate?)
    ensures p !in s.procs && !proc.ReadRun? ==> Fits(Goto(s, p, proc))
    ensures p !in s.procs && proc.ReadRun? && s.lease.None? ==> Fits(Goto(s, p, proc).(lease := Some(p)))
  {
    if p !in s.procs {
      var t := if proc.ReadRun? then Goto(s, p, proc).(lease := Some(p)) else Goto(s, p, proc);
      if !proc.ReadRun? || s.lease.None? {
        QuietStepKeeps(s, t, p);
      }
    }
  }

  lemma {:induction false} StepKeepsInv(s: State, e: Event)
    requires Inv(s)
    ensures Inv(Step(s, e))
  {
    StepKeepsTokens(s, e);
    hide TokensFit;
    match e
    case Execute(p, allowFailed) => StartKeeps(s, p, ReadRun(allowFailed));
    case RequestStop(p, request) => StartKeeps(s, p, AskRead(request));
    case Create(p, run) => StartKeeps(s, p, WantCreate(run));
    case Crash(p) => ExitKeeps(s, p);
    case Act(p, outcome, giveUp) =>
      if p in s.procs {
        if IsCreator(s.procs[p]) {
          CreatorKeeps(s, p);
        } else if IsRequester(s.procs[p]) {
          RequesterKeeps(s, p, giveUp);
        } else {
          ExecutorKeeps(s, p, outcome, giveUp);
        }
      }
  }

  // ----- The tokens' leases ------------------------------------------------------------------

  // p takes a step that touches no token, and no token lease but perhaps to free its own.
  ghost predicate AwayFromTokens(s: State, t: State, p: Pid) {
    && t.tokens == s.tokens && t.tokenLeases == Freed(s.tokenLeases, p)
    && (forall q :: q != p ==> (q in t.procs <==> q in s.procs))
    && (forall q :: q != p && q in t.procs ==> t.procs[q] == s.procs[q])
    && (p in t.procs ==> !HoldsTokenLease(t.procs[p]))
  }

  lemma {:induction false} AwayKeepsTokens(s: State, t: State, p: Pid)
    requires TokensFit(s) && AwayFromTokens(s, t, p)
    ensures TokensFit(t)
  {
    forall a | a in t.tokenLeases ensures IsAtToken(t, t.tokenLeases[a], a) {
      assert IsAtToken(s, s.tokenLeases[a], a);
    }
    forall q | q in t.procs && HoldsTokenLease(t.procs[q]) ensures LeasesToken(t, q, t.procs[q].snap.attempt) {
      assert LeasesToken(s, q, s.procs[q].snap.attempt);
    }
  }

  // Nobody away from the tokens has a token lease to free.
  lemma {:induction false} NothingToFree(s: State, p: Pid)
    requires TokensFit(s) && (p in s.procs ==> !HoldsTokenLease(s.procs[p]))
    ensures Freed(s.tokenLeases, p) == s.tokenLeases
  {
    forall a | a in s.tokenLeases ensures s.tokenLeases[a] != p {
      assert IsAtToken(s, s.tokenLeases[a], a);
    }
  }

  lemma {:induction false} StepKeepsTokens(s: State, e: Event)
    requires TokensFit(s)
    ensures TokensFit(Step(s, e))
  {
    match e
    case Act(p, outcome, giveUp) =>
      if p in s.procs {
        if IsCreator(s.procs[p]) {
          NothingToFree(s, p);
          CreatorStaysAway(s, p);
          AwayKeepsTokens(s, CreatorStep(s, p), p);
        } else if IsRequester(s.procs[p]) {
          RequesterKeepsTokens(s, p, giveUp);
        } else {
          NothingToFree(s, p);
          ExecutorStaysAway(s, p, outcome, giveUp);
          AwayKeepsTokens(s, ExecutorStep(s, p, outcome, giveUp), p);
        }
      }
    case Crash(p) => AwayKeepsTokens(s, Exit(s, p), p);
    case Execute(p, _) => StartKeepsTokens(s, e, p);
    case RequestStop(p, _) => StartKeepsTokens(s, e, p);
    case Create(p, _) => StartKeepsTokens(s, e, p);
  }

  lemma {:induction false} StartKeepsTokens(s: State, e: Event, p: Pid)
    requires TokensFit(s) && !e.Act? && !e.Crash? && e.pid == p
    ensures TokensFit(Step(s, e))
  {
    if p !in s.procs {
      NothingToFree(s, p);
      if Step(s, e) != s {
        AwayKeepsTokens(s, Step(s, e), p);
      }
    }
  }

  lemma {:induction false} CreatorStaysAway(s: State, p: Pid)
    requires p in s.procs && IsCreator(s.procs[p]) && Freed(s.tokenLeases, p) == s.tokenLeases
    ensures AwayFromTokens(s, CreatorStep(s, p), p)
  {
  }

  lemma {:induction false} ExecutorStaysAway(s: State, p: Pid, outcome: Outcome, giveUp: bool)
    requires p in s.procs && !IsCreator(s.procs[p]) && !IsRequester(s.procs[p]) && Freed(s.tokenLeases, p) == s.tokenLeases
    ensures AwayFromTokens(s, ExecutorStep(s, p, outcome, giveUp), p)
  {
  }

  lemma {:induction false} RequesterKeepsTokens(s: State, p: Pid, giveUp: bool)
    requires TokensFit(s) && p in s.procs && IsRequester(s.procs[p])
    ensures TokensFit(RequesterStep(s, p, giveUp))
  {
    var t := RequesterStep(s, p, giveUp);
    if HoldsTokenLease(s.procs[p]) {
      HolderKeepsTokens(s, p, giveUp);
    } else {
      NothingToFree(s, p);
      if s.procs[p].AskToken? {
        TakingKeepsTokens(s, p, giveUp);
      } else {
        AwayKeepsTokens(s, t, p);
      }
    }
  }

  lemma {:induction false} TakingKeepsTokens(s: State, p: Pid, giveUp: bool)
    requires TokensFit(s) && p in s.procs && s.procs[p].AskToken?
    ensures TokensFit(RequesterStep(s, p, giveUp))
  {
    var t := RequesterStep(s, p, giveUp);
    forall a | a in t.tokenLeases ensures IsAtToken(t, t.tokenLeases[a], a) {
      assert a in s.tokenLeases ==> IsAtToken(s, s.tokenLeases[a], a);
    }
    forall q | q in t.procs && HoldsTokenLease(t.procs[q]) ensures LeasesToken(t, q, t.procs[q].snap.attempt) {
      assert q != p ==> LeasesToken(s, q, s.procs[q].snap.attempt);
    }
  }

  // The holder finds a token, finds none, or writes one; no other holder is at the same.
  lemma {:induction false} HolderKeepsTokens(s: State, p: Pid, giveUp: bool)
    requires TokensFit(s) && p in s.procs && HoldsTokenLease(s.procs[p])
    ensures TokensFit(RequesterStep(s, p, giveUp))
  {
    var t := RequesterStep(s, p, giveUp);
    assert LeasesToken(s, p, s.procs[p].snap.attempt);
    forall a | a in t.tokenLeases ensures IsAtToken(t, t.tokenLeases[a], a) {
      assert IsAtToken(s, s.tokenLeases[a], a);
    }
    forall q | q in t.procs && HoldsTokenLease(t.procs[q]) ensures LeasesToken(t, q, t.procs[q].snap.attempt) {
      assert LeasesToken(s, q, s.procs[q].snap.attempt);
    }
  }

  lemma {:induction false} RunKeepsInv(s: State, events: seq<Event>)
    requires Inv(s)
    ensures Inv(StateAfter(s, events))
    decreases |events|
  {
    if events != [] {
      RunKeepsInv(s, events[..|events| - 1]);
      StepKeepsInv(StateAfter(s, events[..|events| - 1]), events[|events| - 1]);
    }
  }

  // ----- Over every run ---------------------------------------------------------------------

  lemma {:induction false} EmptyFits()
    ensures Inv(EMPTY)
  {
  }

  // Every snapshot ever stored belongs to one accepted history, so the lifetime laws
  // hold of it, whatever interleaves or crashes.
  lemma {:induction false} EveryRunIsAHistory(events: seq<Event>, i: nat)
    requires i < |StateAfter(EMPTY, events).history|
    ensures var h := StateAfter(EMPTY, events).history;
      && IsHistory(h) && StateAfter(EMPTY, events).snap == Some(h[|h| - 1])
      && (h[i].awaiting.Some? <==> h[i].status.Paused?)
      && (h[i].error.Some? <==> h[i].status.Failed?)
      && (h[i].status.Succeeded? ==> i == |h| - 1)
      && h[i].attempt == Starts(h[..i + 1]) && h[i].epoch == Recoveries(h[..i + 1])
  {
    EmptyFits();
    RunKeepsInv(EMPTY, events);
    var s := StateAfter(EMPTY, events);
    WrittenRunHasHistory(s);
    hide *;
    SnapshotLifetime(s.history, i);
  }

  lemma {:induction false} WrittenRunHasHistory(s: State)
    requires Inv(s) && s.history != []
    ensures IsHistory(s.history) && s.snap == Some(s.history[|s.history| - 1])
  {
    hide LeasesFit, ProcFits, RecordFits, TokensFit, IsHistory;
  }

  // Whoever is about to compare-and-swap holds the current snapshot, so no write is
  // lost and none conflicts. The write is rejected in one case only: stopping a
  // FAILED run, whose last attempt has a token.
  lemma {:induction false} WritesAreCurrentAndAccepted(events: seq<Event>, p: Pid)
    requires p in StateAfter(EMPTY, events).procs
    ensures var s := StateAfter(EMPTY, events); var proc := s.procs[p];
      && (proc.Swap? ==>
            && s.snap == Some(proc.prev) && s.lease == Some(p)
            && (Accepts(proc.prev, proc.next) <==> !(proc.prev.status.Failed? && proc.next.status.Paused?))
            && (!Accepts(proc.prev, proc.next) ==> proc.prev.attempt in s.tokens))
      && (proc.Replace? ==> s.snap == Some(proc.prev) && s.lease == Some(p) && Accepts(proc.prev, proc.next))
  {
    EmptyFits();
    RunKeepsInv(EMPTY, events);
    var s := StateAfter(EMPTY, events);
    assert ProcFits(s, s.procs[p]);
    if s.procs[p].Swap? {
      OfferIsAccepted(s, s.history, s.procs[p].prev, s.procs[p].next, s.procs[p].after);
    }
  }

  lemma {:induction false} OfferIsAccepted(s: State, h: seq<Snapshot>, prev: Snapshot, next: Snapshot, after: Then)
    requires Offered(s, prev, next, after) && IsHistory(h) && h[|h| - 1] == prev
    ensures Accepts(prev, next) <==> !(prev.status.Failed? && next.status.Paused?)
    ensures !Accepts(prev, next) ==> prev.attempt in s.tokens
  {
    SnapshotLifetime(h, |h| - 1);
  }

  // The first stop request of an attempt is never replaced or withdrawn, however many
  // requesters read and write its token.
  lemma {:induction false} FirstStopRequestWins(before: seq<Event>, later: seq<Event>, attempt: nat)
    requires attempt in StateAfter(EMPTY, before).tokens
    ensures Token(StateAfter(EMPTY, before + later), attempt) == Token(StateAfter(EMPTY, before), attempt)
  {
    EmptyFits();
    RunKeepsInv(EMPTY, before);
    RunGrows(StateAfter(EMPTY, before), later);
    RunsCompose(EMPTY, before, later);
  }

  lemma {:induction false} RunGrows(s: State, events: seq<Event>)
    requires Inv(s)
    ensures Grows(s, StateAfter(s, events))
    decreases |events|
  {
    if events != [] {
      RunGrows(s, events[..|events| - 1]);
      RunKeepsInv(s, events[..|events| - 1]);
      StepGrows(StateAfter(s, events[..|events| - 1]), events[|events| - 1]);
    }
  }

  // A stop pauses only the attempt it names, and carries that attempt's token unless
  // the handler stopped by itself.
  lemma {:induction false} StopsAreAttemptScoped(events: seq<Event>, h: Snapshot)
    requires h in StateAfter(EMPTY, events).history && h.awaiting.Some? && h.awaiting.value.ExecutionStopped?
    ensures var s, stop := StateAfter(EMPTY, events), h.awaiting.value;
      && stop.attempt == h.attempt
      && (if stop.request.Some? then Token(s, h.attempt) == stop.request else h.attempt in s.selfStopped)
  {
    EmptyFits();
    RunKeepsInv(EMPTY, events);
    assert RecordFits(StateAfter(EMPTY, events), h);
  }

  // An orphaned attempt is recorded as interrupted under its own number.
  lemma {:induction false} InterruptionsAreAttemptScoped(events: seq<Event>, h: Snapshot)
    requires h in StateAfter(EMPTY, events).history && h.awaiting.Some? && h.awaiting.value.ExecutionInterrupted?
    ensures h.awaiting.value.attempt == h.attempt && h.interrupted && h.status.Paused?
  {
    EmptyFits();
    RunKeepsInv(EMPTY, events);
    var s := StateAfter(EMPTY, events);
    assert RecordFits(s, h);
    var i :| 0 <= i < |s.history| && s.history[i] == h;
    assert IsHistory(s.history);
    SnapshotLifetime(s.history, i);
  }

  // ----- A stop that comes in time ------------------------------------------------------------

  // How an attempt stopped in time may end.
  predicate EndsWithoutOutcome(h: Snapshot) {
    || h.status.Pending? || h.status.Running?
    || (h.awaiting.Some? && !h.awaiting.value.ByHandler?)
    || (h.error.Some? && h.error.value.Unhandled?)
  }

  lemma {:induction false} StepNeverClears(s: State, e: Event, n: nat)
    requires n in s.tokens && n !in s.cleared
    ensures n !in Step(s, e).cleared
  {
    match e
    case Act(p, outcome, giveUp) =>
      if p in s.procs && !IsCreator(s.procs[p]) {
        if IsRequester(s.procs[p]) {
          RequesterClearsNothing(s, p, giveUp);
        } else {
          LastCheckClears(s, p, outcome, giveUp);
        }
      }
    case _ =>
  }

  lemma {:induction false} RequesterClearsNothing(s: State, p: Pid, giveUp: bool)
    requires p in s.procs
    ensures RequesterStep(s, p, giveUp).cleared == s.cleared
  {
    hide Freed, StoppedSnapshot;
  }

  lemma {:induction false} LastCheckClears(s: State, p: Pid, outcome: Outcome, giveUp: bool)
    requires p in s.procs
    ensures forall n :: n in ExecutorStep(s, p, outcome, giveUp).cleared && n !in s.cleared ==> n !in s.tokens
  {
    hide Freed, FinalSnapshot, StoppedSnapshot, RunningSnapshot, RecoveredSnapshot, FailedSnapshot;
  }

  lemma {:induction false} NeverCleared(s: State, events: seq<Event>, n: nat)
    requires Inv(s) && n in s.tokens && n !in s.cleared
    ensures n in StateAfter(s, events).tokens && n !in StateAfter(s, events).cleared
    decreases |events|
  {
    if events != [] {
      var before := events[..|events| - 1];
      NeverCleared(s, before, n);
      StepNeverClears(StateAfter(s, before), events[|events| - 1], n);
      RunKeepsInv(s, before);
      StepGrows(StateAfter(s, before), events[|events| - 1]);
    }
  }

  lemma {:induction false} RunsCompose(s: State, a: seq<Event>, b: seq<Event>)
    ensures StateAfter(StateAfter(s, a), b) == StateAfter(s, a + b)
    decreases |b|
  {
    if b == [] {
      assert a + b == a;
    } else {
      RunsCompose(s, a, b[..|b| - 1]);
      assert (a + b)[..|a + b| - 1] == a + b[..|b| - 1];
    }
  }

  // If attempt n's token is durable before its last check, then in every
  // continuation n is running, paused by the kernel, or failed because its handler
  // raised: never succeeded, never with the handler's own pause or failure.
  lemma {:induction false} StopInTimeIsHonoured(before: seq<Event>, later: seq<Event>, n: nat, h: Snapshot)
    requires n in StateAfter(EMPTY, before).tokens && n !in StateAfter(EMPTY, before).cleared
    requires h in StateAfter(EMPTY, before + later).history && h.attempt == n
    ensures EndsWithoutOutcome(h)
  {
    var s := StateAfter(EMPTY, before + later);
    EmptyFits();
    RunKeepsInv(EMPTY, before);
    RunKeepsInv(EMPTY, before + later);
    RunsCompose(EMPTY, before, later);
    NeverCleared(StateAfter(EMPTY, before), later, n);
    assert RecordFits(s, h);
    var i :| 0 <= i < |s.history| && s.history[i] == h;
    SnapshotLifetime(s.history, i);
  }

  // ----- Resuming ------------------------------------------------------------------------------

  function Quiet(p: Pid): Event {
    Act(p, ReturnsOther, false)
  }

  function Acts(p: Pid, n: nat): seq<Event> {
    seq(n, _ => Quiet(p))
  }

  lemma {:induction false} ActOnce(s: State, p: Pid, n: nat)
    ensures StateAfter(s, Acts(p, n + 1)) == Step(StateAfter(s, Acts(p, n)), Quiet(p))
  {
    assert Acts(p, n + 1)[..n] == Acts(p, n);
  }

  lemma {:induction false} FourActs(s: State, p: Pid)
    ensures StateAfter(s, Acts(p, 4)) == Step(Step(Step(Step(s, Quiet(p)), Quiet(p)), Quiet(p)), Quiet(p))
  {
    assert StateAfter(s, Acts(p, 0)) == s;
    ActOnce(s, p, 0);
    ActOnce(s, p, 1);
    ActOnce(s, p, 2);
    ActOnce(s, p, 3);
    hide StateAfter, Step;
  }

  lemma {:induction false} StoredShape(s: State)
    requires Inv(s) && s.snap.Some?
    ensures ValidShape(s.snap.value)
  {
    var last := |s.history| - 1;
    assert last > 0 ==> Accepts(s.history[last - 1], s.history[last]);
  }

  // A lone executor that is about to swap.
  lemma {:induction false} SwapAlone(s: State, p: Pid)
    requires p in s.procs && s.procs[p].Swap? && s.snap == Some(s.procs[p].prev)
    ensures var t := Step(Step(s, Quiet(p)), Quiet(p)); var Swap(prev, next, after) := s.procs[p];
      if !Accepts(prev, next) then t == Exit(s, p)
      else t.snap == Some(next) && t.tokens == s.tokens && (after.Leave? ==> p !in t.procs) && (after.Leave? ==> t.lease == Exit(s, p).lease)
  {
    var t := Step(s, Quiet(p));
    if Accepts(s.procs[p].prev, s.procs[p].next) {
      assert t.procs[p].Replace?;
    }
  }

  // The pause that a stop leaves.
  ghost predicate RecordsStop(s: Snapshot, before: Snapshot, request: Option<StopRequest>) {
    && s.status.Paused? && s.awaiting == Some(ExecutionStopped(before.attempt, request))
    && s.run == before.run && s.attempt == before.attempt && s.epoch == before.epoch && s.revision == before.revision + 1
    && s.interrupted == (before.interrupted || before.status.Running?)
  }

  // The first token asked for an attempt.
  function FirstAsked(s: State, attempt: nat, request: StopRequest): StopRequest {
    if attempt in s.tokens then s.tokens[attempt] else request
  }

  // A stop request that runs alone leaves a token for the current attempt, the first
  // one made for it, and pauses a run that has not started; it takes at most eight steps.
  lemma {:induction false} LoneRequestTakesHold(events: seq<Event>, p: Pid, request: StopRequest) returns (n: nat)
    requires var s := StateAfter(EMPTY, events);
      && p !in s.procs && s.snap.Some? && !s.snap.value.status.Succeeded? && !s.snap.value.status.Failed?
      && s.snap.value.attempt !in s.tokenLeases && (s.snap.value.status.Pending? ==> s.lease.None?)
    ensures var s := StateAfter(EMPTY, events); var snap := s.snap.value;
      var t := StateAfter(Step(s, RequestStop(p, request)), Acts(p, n));
      && n <= 8
      && Token(t, snap.attempt) == Some(FirstAsked(s, snap.attempt, request))
      && (if snap.status.Pending? then t.snap.Some? && RecordsStop(t.snap.value, snap, Token(t, snap.attempt)) else t.snap == s.snap)
      && p !in t.procs && t.lease == s.lease
  {
    EmptyFits();
    RunKeepsInv(EMPTY, events);
    var s := StateAfter(EMPTY, events);
    StoredShape(s);
    if s.snap.value.status.Pending? {
      n := RequestWhilePending(s, p, request);
    } else {
      n := RequestOnceStarted(s, p, request);
    }
  }

  lemma {:induction false} ActsCompose(s: State, p: Pid, a: nat, b: nat)
    ensures StateAfter(s, Acts(p, a + b)) == StateAfter(StateAfter(s, Acts(p, a)), Acts(p, b))
  {
    RunsCompose(s, Acts(p, a), Acts(p, b));
    assert Acts(p, a) + Acts(p, b) == Acts(p, a + b);
  }

  lemma {:induction false} TwoActs(s: State, p: Pid)
    ensures StateAfter(s, Acts(p, 0)) == s && StateAfter(s, Acts(p, 1)) == Step(s, Quiet(p))
    ensures StateAfter(s, Acts(p, 2)) == Step(Step(s, Quiet(p)), Quiet(p))
  {
    assert StateAfter(s, Acts(p, 0)) == s;
    ActOnce(s, p, 0);
    ActOnce(s, p, 1);
    hide StateAfter, Step;
  }

  // A requester alone at a token that nobody else is at.
  lemma {:induction false} TokenAlone(s: State, p: Pid) returns (n: nat)
    requires p in s.procs && s.procs[p].AskToken? && s.procs[p].snap.attempt !in s.tokenLeases
    ensures var AskToken(snap, request, role) := s.procs[p]; var t := StateAfter(s, Acts(p, n));
      var kept := if snap.attempt in s.tokens then s.tokens[snap.attempt] else request;
      && n <= 3 && Token(t, snap.attempt) == Some(kept) && t.snap == s.snap
      && if role.Pausing? then p in t.procs && t.procs[p] == Swap(snap, StoppedSnapshot(snap, Some(kept)), Leave) && t.lease == s.lease
         else p !in t.procs && t.lease == Exit(s, p).lease
  {
    var AskToken(snap, request, role) := s.procs[p];
    var s1 := Step(s, Quiet(p));
    assert s1.procs[p] == CheckToken(snap, request, role) && s1.tokens == s.tokens && s1.snap == s.snap && s1.lease == s.lease;
    TwoActs(s, p);
    ActOnce(s, p, 2);
    hide StateAfter;
    n := if snap.attempt in s.tokens then 2 else 3;
    CheckedAlone(s1, p);
  }

  lemma {:induction false} CheckedAlone(s: State, p: Pid)
    requires p in s.procs && s.procs[p].CheckToken?
    ensures var CheckToken(snap, request, role) := s.procs[p];
      var kept := if snap.attempt in s.tokens then s.tokens[snap.attempt] else request;
      var t := if snap.attempt in s.tokens then Step(s, Quiet(p)) else Step(Step(s, Quiet(p)), Quiet(p));
      && Token(t, snap.attempt) == Some(kept) && t.snap == s.snap
      && if role.Pausing? then p in t.procs && t.procs[p] == Swap(snap, StoppedSnapshot(snap, Some(kept)), Leave) && t.lease == s.lease
         else p !in t.procs && t.lease == Exit(s, p).lease
  {
    var CheckToken(snap, request, role) := s.procs[p];
    if snap.attempt !in s.tokens {
      assert Step(s, Quiet(p)).procs[p] == WriteToken(snap, request, role);
    }
  }

  lemma {:induction false} RequestOnceStarted(s: State, p: Pid, request: StopRequest) returns (n: nat)
    requires p !in s.procs && s.snap.Some? && (s.snap.value.status.Running? || s.snap.value.status.Paused?)
    requires s.lease != Some(p) && s.snap.value.attempt !in s.tokenLeases
    ensures var snap := s.snap.value; var t := StateAfter(Step(s, RequestStop(p, request)), Acts(p, n));
      && n <= 4 && Token(t, snap.attempt) == Some(if snap.attempt in s.tokens then s.tokens[snap.attempt] else request)
      && t.snap == s.snap && p !in t.procs && t.lease == s.lease
  {
    var s0 := Step(s, RequestStop(p, request));
    var s1 := Step(s0, Quiet(p));
    assert s1.procs[p] == AskToken(s.snap.value, request, Unlocked) && s1.lease == s.lease && s1.snap == s.snap
      && s1.tokens == s.tokens && s1.tokenLeases == s.tokenLeases;
    TwoActs(s0, p);
    hide Step, StateAfter;
    var m := TokenAlone(s1, p);
    ActsCompose(s0, p, 1, m);
    n := 1 + m;
  }

  lemma {:induction false} RequestWhilePending(s: State, p: Pid, request: StopRequest) returns (n: nat)
    requires p !in s.procs && s.snap.Some? && s.snap.value.status.Pending? && s.lease.None? && ValidShape(s.snap.value)
    requires s.snap.value.attempt !in s.tokenLeases
    ensures var snap := s.snap.value; var t := StateAfter(Step(s, RequestStop(p, request)), Acts(p, n));
      && n <= 8 && Token(t, snap.attempt) == Some(FirstAsked(s, snap.attempt, request))
      && t.snap.Some? && RecordsStop(t.snap.value, snap, Token(t, snap.attempt)) && p !in t.procs && t.lease.None?
  {
    hide StateAfter, Step, ValidShape, RecordsStop;
    PendingReachesToken(s, p, request);
    var s0 := Step(s, RequestStop(p, request));
    var m := PausesWithToken(StateAfter(s0, Acts(p, 3)), p);
    ActsCompose(s0, p, 3, m);
    n := 3 + m;
  }

  // A requester alone under the run lease, at the token of a run that it then pauses.
  lemma {:induction false} PausesWithToken(s: State, p: Pid) returns (n: nat)
    requires p in s.procs && s.procs[p].AskToken? && s.procs[p].role.Pausing? && s.procs[p].snap.attempt !in s.tokenLeases
    requires s.snap == Some(s.procs[p].snap) && s.lease == Some(p)
    requires ValidShape(s.procs[p].snap) && (s.procs[p].snap.status.Pending? || s.procs[p].snap.status.Running?)
    ensures var snap := s.procs[p].snap; var t := StateAfter(s, Acts(p, n));
      && n <= 5 && Token(t, snap.attempt) == Some(FirstAsked(s, snap.attempt, s.procs[p].request))
      && t.snap.Some? && RecordsStop(t.snap.value, snap, Token(t, snap.attempt)) && p !in t.procs && t.lease.None?
  {
    hide StateAfter, Step;
    var snap := s.procs[p].snap;
    var m := TokenAlone(s, p);
    var offered := StateAfter(s, Acts(p, m));
    TwoActs(offered, p);
    ActsCompose(s, p, m, 2);
    n := m + 2;
    var stopped := StoppedSnapshot(snap, Token(offered, snap.attempt));
    assert Accepts(snap, stopped) && RecordsStop(stopped, snap, Token(offered, snap.attempt));
    hide Accepts, StoppedSnapshot, ValidShape, RecordsStop;
    SwapAlone(offered, p);
  }

  lemma {:induction false} PendingReachesToken(s: State, p: Pid, request: StopRequest)
    requires p !in s.procs && s.snap.Some? && s.snap.value.status.Pending? && s.lease.None?
    ensures var t := StateAfter(Step(s, RequestStop(p, request)), Acts(p, 3));
      && p in t.procs && t.procs[p] == AskToken(s.snap.value, request, Pausing) && t.lease == Some(p)
      && t.snap == s.snap && t.tokens == s.tokens && t.tokenLeases == s.tokenLeases
  {
    var s0 := Step(s, RequestStop(p, request));
    TwoActs(s0, p);
    ActOnce(s0, p, 2);
    hide StateAfter, Freed;
    assert s0.procs[p] == AskRead(request) && s0 == s.(procs := s0.procs);
    LeaseIsTaken(s0, p, request);
  }

  lemma {:induction false} LeaseIsTaken(s: State, p: Pid, request: StopRequest)
    requires p in s.procs && s.procs[p] == AskRead(request) && s.snap.Some? && s.snap.value.status.Pending? && s.lease.None?
    ensures var t := Step(Step(Step(s, Quiet(p)), Quiet(p)), Quiet(p));
      && p in t.procs && t.procs[p] == AskToken(s.snap.value, request, Pausing) && t.lease == Some(p)
      && t.snap == s.snap && t.tokens == s.tokens && t.tokenLeases == s.tokenLeases
  {
    var s1 := Step(s, Quiet(p));
    assert s1.procs[p] == AskLease(request) && s1 == s.(procs := s1.procs);
    var s2 := Step(s1, Quiet(p));
    assert s2.procs[p] == AskLocked(request) && s2 == s.(procs := s2.procs, lease := Some(p));
  }

  // A requester that has got the run lease leaves the first token, and pauses the run
  // unless it is paused already.
  lemma {:induction false} LockedRequestTakesHold(events: seq<Event>, p: Pid, request: StopRequest) returns (n: nat)
    requires var s := StateAfter(EMPTY, events);
      && p in s.procs && s.procs[p] == AskLocked(request) && s.snap.Some? && s.snap.value.attempt !in s.tokenLeases
      && !s.snap.value.status.Succeeded? && !s.snap.value.status.Failed?
    ensures var s := StateAfter(EMPTY, events); var snap := s.snap.value; var t := StateAfter(s, Acts(p, n));
      && n <= 6 && Token(t, snap.attempt) == Some(FirstAsked(s, snap.attempt, request))
      && (if snap.status.Paused? then t.snap == s.snap else t.snap.Some? && RecordsStop(t.snap.value, snap, Token(t, snap.attempt)))
      && p !in t.procs && t.lease.None?
  {
    EmptyFits();
    RunKeepsInv(EMPTY, events);
    var s := StateAfter(EMPTY, events);
    StoredShape(s);
    LeaseOfRequester(s, p);
    hide *;
    n := LockedAlone(s, p, request);
  }

  lemma {:induction false} LeaseOfRequester(s: State, p: Pid)
    requires Inv(s) && p in s.procs
    ensures s.procs[p].AskLocked? ==> s.lease == Some(p)
    ensures s.procs[p].AskWait? || s.procs[p].AskRead? || s.procs[p].AskLease? ==> s.lease != Some(p)
  {
    hide Inv;
    assert LeasesFit(s) by {
      InvFitsLeases(s);
    }
  }

  lemma {:induction false} InvFitsLeases(s: State)
    requires Inv(s)
    ensures LeasesFit(s)
  {
  }

  lemma {:induction false} LockedAlone(s: State, p: Pid, request: StopRequest) returns (n: nat)
    requires p in s.procs && s.procs[p] == AskLocked(request) && s.snap.Some? && s.snap.value.attempt !in s.tokenLeases
    requires !s.snap.value.status.Succeeded? && !s.snap.value.status.Failed? && s.lease == Some(p) && ValidShape(s.snap.value)
    ensures var snap := s.snap.value; var t := StateAfter(s, Acts(p, n));
      && n <= 6 && Token(t, snap.attempt) == Some(FirstAsked(s, snap.attempt, request))
      && (if snap.status.Paused? then t.snap == s.snap else t.snap.Some? && RecordsStop(t.snap.value, snap, Token(t, snap.attempt)))
      && p !in t.procs && t.lease.None?
  {
    hide StateAfter, Step, RecordsStop, ValidShape;
    LockedAsks(s, p, request);
    var s1 := Step(s, Quiet(p));
    TwoActs(s, p);
    if s.snap.value.status.Paused? {
      n := TokenAlone(s1, p);
    } else {
      n := PausesWithToken(s1, p);
    }
    ActsCompose(s, p, 1, n);
    n := 1 + n;
  }

  lemma {:induction false} LockedAsks(s: State, p: Pid, request: StopRequest)
    requires p in s.procs && s.procs[p] == AskLocked(request) && s.snap.Some?
    requires !s.snap.value.status.Succeeded? && !s.snap.value.status.Failed?
    ensures var t := Step(s, Quiet(p));
      && p in t.procs && t.procs[p] == AskToken(s.snap.value, request, if s.snap.value.status.Paused? then Locked else Pausing)
      && t.snap == s.snap && t.tokens == s.tokens && t.tokenLeases == s.tokenLeases && t.lease == s.lease
  {
  }

  // A requester that found the run lease taken waits for the run to start and then asks
  // for a token; while the run is pending it waits on, or gives up.
  lemma {:induction false} WaitingRequestTakesHold(events: seq<Event>, p: Pid, request: StopRequest) returns (n: nat)
    requires var s := StateAfter(EMPTY, events);
      && p in s.procs && s.procs[p] == AskWait(request) && s.snap.Some? && s.snap.value.attempt !in s.tokenLeases
      && (s.snap.value.status.Running? || s.snap.value.status.Paused?)
    ensures var s := StateAfter(EMPTY, events); var snap := s.snap.value; var t := StateAfter(s, Acts(p, n));
      && n <= 4 && Token(t, snap.attempt) == Some(FirstAsked(s, snap.attempt, request))
      && t.snap == s.snap && p !in t.procs && t.lease == s.lease
  {
    EmptyFits();
    RunKeepsInv(EMPTY, events);
    var s := StateAfter(EMPTY, events);
    LeaseOfRequester(s, p);
    hide *;
    n := WaitingAlone(s, p, request);
  }

  lemma {:induction false} WaitingAlone(s: State, p: Pid, request: StopRequest) returns (n: nat)
    requires p in s.procs && s.procs[p] == AskWait(request) && s.snap.Some? && s.snap.value.attempt !in s.tokenLeases
    requires s.snap.value.status.Running? || s.snap.value.status.Paused?
    requires s.lease != Some(p)
    ensures var snap := s.snap.value; var t := StateAfter(s, Acts(p, n));
      && n <= 4 && Token(t, snap.attempt) == Some(FirstAsked(s, snap.attempt, request))
      && t.snap == s.snap && p !in t.procs && t.lease == s.lease
  {
    hide StateAfter, Step;
    WaitingAsks(s, p, request);
    var s1 := Step(s, Quiet(p));
    TwoActs(s, p);
    var m := TokenAlone(s1, p);
    ActsCompose(s, p, 1, m);
    n := 1 + m;
  }

  lemma {:induction false} WaitingAsks(s: State, p: Pid, request: StopRequest)
    requires p in s.procs && s.procs[p] == AskWait(request) && s.snap.Some?
    requires s.snap.value.status.Running? || s.snap.value.status.Paused?
    ensures var t := Step(s, Quiet(p));
      && p in t.procs && t.procs[p] == AskToken(s.snap.value, request, Unlocked)
      && t.snap == s.snap && t.tokens == s.tokens && t.tokenLeases == s.tokenLeases && t.lease == s.lease
  {
  }

  // A request that finds no run, or one that has ended, leaves no token; nor does one that
  // gives up while the run is pending.
  lemma {:induction false} LateRequestIsDropped(s: State, p: Pid, giveUp: bool)
    requires p in s.procs && (s.procs[p].AskRead? || s.procs[p].AskWait? || s.procs[p].AskLocked?)
    requires s.snap.None? || s.snap.value.status.Succeeded? || s.snap.value.status.Failed?
             || (s.procs[p].AskWait? && s.snap.value.status.Pending? && giveUp)
    ensures Step(s, Act(p, ReturnsOther, giveUp)) == Exit(s, p)
    ensures Exit(s, p).tokens == s.tokens && Exit(s, p).snap == s.snap && p !in Exit(s, p).procs && Exit(s, p).lease != Some(p)
  {
    hide Freed;
  }

  // A request for a pending run takes the run lease if it is free, and waits otherwise.
  lemma {:induction false} PendingRequestTriesLease(s: State, p: Pid)
    requires p in s.procs && s.snap.Some? && s.snap.value.status.Pending?
    ensures var t := Step(s, Quiet(p)); var proc := s.procs[p];
      && (proc.AskRead? ==> t == Goto(s, p, AskLease(proc.request)))
      && (proc.AskLease? && s.lease.None? ==> t == Goto(s, p, AskLocked(proc.request)).(lease := Some(p)))
      && (proc.AskLease? && s.lease.Some? ==> t == Goto(s, p, AskWait(proc.request)))
      && (proc.AskWait? ==> t == s)
  {
  }

  // A creation that runs alone leaves a PENDING run, or the run that was there.
  lemma {:induction false} LoneCreationTakesHold(events: seq<Event>, p: Pid, run: int)
    requires var s := StateAfter(EMPTY, events); s.createLease.None? && p !in s.procs
    ensures var s := StateAfter(EMPTY, events);
      var t := Step(Step(Step(Step(s, Create(p, run)), Quiet(p)), Quiet(p)), Quiet(p));
      && t.snap == Some(if s.snap.Some? then s.snap.value else Initial(run)) && t.procs == s.procs
      && t.createLease.None? && t.lease == s.lease && t.tokens == s.tokens
  {
    EmptyFits();
    RunKeepsInv(EMPTY, events);
    var s := StateAfter(EMPTY, events);
    assert s.lease != Some(p) by {
      InvFitsLeases(s);
    }
    hide *;
    CreationAlone(s, p, run);
  }

  lemma {:induction false} CreationAlone(s: State, p: Pid, run: int)
    requires s.createLease.None? && p !in s.procs && s.lease != Some(p)
    ensures var t := Step(Step(Step(Step(s, Create(p, run)), Quiet(p)), Quiet(p)), Quiet(p));
      && t.snap == Some(if s.snap.Some? then s.snap.value else Initial(run)) && t.procs == s.procs
      && t.createLease.None? && t.lease == s.lease && t.tokens == s.tokens
  {
    hide *;
    CreationIsChecked(s, p, run);
    CheckedCreation(s, Step(Step(s, Create(p, run)), Quiet(p)), p, run);
  }

  lemma {:induction false} CreationIsChecked(s: State, p: Pid, run: int)
    requires s.createLease.None? && p !in s.procs
    ensures Step(Step(s, Create(p, run)), Quiet(p)) == s.(procs := s.procs[p := CheckCreate(run)], createLease := Some(p))
  {
  }

  lemma {:induction false} CheckedCreation(s: State, checked: State, p: Pid, run: int)
    requires p !in s.procs && s.lease != Some(p) && checked == s.(procs := s.procs[p := CheckCreate(run)], createLease := Some(p))
    ensures var t := Step(Step(checked, Quiet(p)), Quiet(p));
      && t.snap == Some(if s.snap.Some? then s.snap.value else Initial(run)) && t.procs == s.procs
      && t.createLease.None? && t.lease == s.lease && t.tokens == s.tokens
  {
    hide Freed, Initial;
  }

  // An attempt just started, and not asked to stop, is handed to its handler.
  lemma {:induction false} AttemptReachesHandler(events: seq<Event>, p: Pid, outcome: Outcome, giveUp: bool)
    requires var s := StateAfter(EMPTY, events);
      p in s.procs && s.procs[p].FirstCheck? && s.procs[p].snap.attempt !in s.tokens
    ensures var s := StateAfter(EMPTY, events); var t := Step(s, Act(p, outcome, giveUp));
      t == s.(procs := t.procs) && t.procs == s.procs[p := Handler(s.procs[p].snap)] && s.snap == Some(s.procs[p].snap)
  {
    EmptyFits();
    RunKeepsInv(EMPTY, events);
    var s := StateAfter(EMPTY, events);
    HandlerHoldsCurrent(s, p);
    hide Inv, StateAfter;
  }

  // What recording an outcome keeps of its attempt.
  ghost predicate SameAttempt(running: Snapshot, s: Snapshot) {
    && s.run == running.run && s.attempt == running.attempt && s.epoch == running.epoch
    && s.interrupted == running.interrupted && s.revision == running.revision + 1
  }

  // An attempt that nobody asked to stop before its last check is recorded as its
  // handler left it: success and pauses once their artifacts verify, a failure with
  // its own error, and anything else as an unhandled one.
  lemma {:induction false} OutcomeIsRecorded(events: seq<Event>, p: Pid, outcome: Outcome, giveUp: bool)
    requires var s := StateAfter(EMPTY, events);
      p in s.procs && s.procs[p].Handler? && s.procs[p].snap.attempt !in s.tokens
    requires !outcome.Raises? && !outcome.RaisesStopped?
    ensures var s := StateAfter(EMPTY, events);
      var t := Step(Step(Step(Step(s, Act(p, outcome, giveUp)), Quiet(p)), Quiet(p)), Quiet(p));
      && t.snap.Some? && SameAttempt(s.procs[p].snap, t.snap.value) && p !in t.procs && t.lease.None?
      && Records(t.snap.value, outcome)
  {
    EmptyFits();
    RunKeepsInv(EMPTY, events);
    var s := StateAfter(EMPTY, events);
    HandlerHoldsCurrent(s, p);
    hide *;
    ReturnIsRecorded(s, p, outcome, giveUp);
  }

  lemma {:induction false} ReturnIsRecorded(s: State, p: Pid, outcome: Outcome, giveUp: bool)
    requires p in s.procs && s.procs[p].Handler? && s.procs[p].snap.attempt !in s.tokens
    requires s.snap == Some(s.procs[p].snap) && s.lease == Some(p)
    requires s.procs[p].snap.status.Running? && ValidShape(s.procs[p].snap)
    requires !outcome.Raises? && !outcome.RaisesStopped?
    ensures var t := Step(Step(Step(Step(s, Act(p, outcome, giveUp)), Quiet(p)), Quiet(p)), Quiet(p));
      && t.snap.Some? && SameAttempt(s.procs[p].snap, t.snap.value) && p !in t.procs && t.lease.None?
      && Records(t.snap.value, outcome)
  {
    var running := s.procs[p].snap;
    var s1 := Step(s, Act(p, outcome, giveUp));
    assert s1.procs[p] == LastCheck(running, outcome) && s1 == s.(procs := s1.procs);
    var s2 := Step(s1, Quiet(p));
    assert s2.procs[p] == Swap(running, FinalSnapshot(running, outcome), Leave) && s2.snap == Some(running) && s2.lease == Some(p);
    FinalIsAccepted(running, outcome);
    hide Step, Accepts, FinalSnapshot, Records, SameAttempt;
    SwapAlone(s2, p);
  }

  lemma {:induction false} HandlerHoldsCurrent(s: State, p: Pid)
    requires Inv(s) && p in s.procs && (s.procs[p].Handler? || s.procs[p].FirstCheck?)
    ensures s.snap == Some(s.procs[p].snap) && s.lease == Some(p)
    ensures s.procs[p].snap.status.Running? && ValidShape(s.procs[p].snap)
  {
    assert ProcFits(s, s.procs[p]);
    StoredShape(s);
  }

  // A handler that raises fails its attempt, asked to stop or not.
  lemma {:induction false} RaisingIsRecorded(events: seq<Event>, p: Pid, giveUp: bool)
    requires var s := StateAfter(EMPTY, events); p in s.procs && s.procs[p].Handler?
    ensures var s := StateAfter(EMPTY, events);
      var t := Step(Step(Step(s, Act(p, Raises, giveUp)), Quiet(p)), Quiet(p));
      && t.snap.Some? && SameAttempt(s.procs[p].snap, t.snap.value) && p !in t.procs && t.lease.None?
      && Records(t.snap.value, Raises)
  {
    EmptyFits();
    RunKeepsInv(EMPTY, events);
    var s := StateAfter(EMPTY, events);
    HandlerHoldsCurrent(s, p);
    var running := s.procs[p].snap;
    var s1 := Step(s, Act(p, Raises, giveUp));
    assert s1.procs[p] == Swap(running, FailedSnapshot(running, Unhandled), Leave) && s1.snap == Some(running) && s1.lease == Some(p);
    hide Inv, StateAfter, ProcFits;
    SwapAlone(s1, p);
  }

  // A handler that stops itself, or that returns after its attempt was asked to stop, and
  // an attempt asked to stop before its handler: paused, with the attempt's token if any.
  lemma {:induction false} StopIsRecorded(events: seq<Event>, p: Pid, outcome: Outcome, giveUp: bool) returns (n: nat)
    requires var s := StateAfter(EMPTY, events);
      && p in s.procs && (s.procs[p].Handler? || s.procs[p].FirstCheck?)
      && (s.procs[p].FirstCheck? || !outcome.RaisesStopped? ==> s.procs[p].snap.attempt in s.tokens)
      && !outcome.Raises?
    ensures var s := StateAfter(EMPTY, events); var t := StateAfter(Step(s, Act(p, outcome, giveUp)), Acts(p, n));
      && n <= 4 && t.snap.Some? && p !in t.procs && t.lease.None?
      && RecordsStop(t.snap.value, s.procs[p].snap, Token(s, s.procs[p].snap.attempt))
  {
    EmptyFits();
    RunKeepsInv(EMPTY, events);
    var s := StateAfter(EMPTY, events);
    HandlerHoldsCurrent(s, p);
    if s.procs[p].FirstCheck? || outcome.RaisesStopped? {
      n := 3;
      StopIsRead(s, p, outcome, giveUp);
    } else {
      n := 4;
      StopIsReadLater(s, p, outcome, giveUp);
    }
  }

  lemma {:induction false} StopIsRead(s: State, p: Pid, outcome: Outcome, giveUp: bool)
    requires p in s.procs && s.lease == Some(p) && (s.procs[p].Handler? || s.procs[p].FirstCheck?)
    requires s.procs[p].snap.status.Running? && ValidShape(s.procs[p].snap) && s.snap == Some(s.procs[p].snap)
    requires if s.procs[p].FirstCheck? then s.procs[p].snap.attempt in s.tokens else outcome.RaisesStopped?
    ensures var t := StateAfter(Step(s, Act(p, outcome, giveUp)), Acts(p, 3)); var running := s.procs[p].snap;
      t.snap.Some? && p !in t.procs && t.lease.None? && RecordsStop(t.snap.value, running, Token(s, running.attempt))
  {
    var s1 := Step(s, Act(p, outcome, giveUp));
    assert s1.procs[p] == ReadStop(s.procs[p].snap) && s1.snap == s.snap && s1.lease == Some(p) && s1.tokens == s.tokens;
    hide StateAfter, Step;
    StopReadAlone(s1, p);
  }

  lemma {:induction false} StopIsReadLater(s: State, p: Pid, outcome: Outcome, giveUp: bool)
    requires p in s.procs && s.lease == Some(p) && s.procs[p].Handler? && s.procs[p].snap.attempt in s.tokens
    requires s.procs[p].snap.status.Running? && ValidShape(s.procs[p].snap) && s.snap == Some(s.procs[p].snap)
    requires !outcome.Raises? && !outcome.RaisesStopped?
    ensures var t := StateAfter(Step(s, Act(p, outcome, giveUp)), Acts(p, 4)); var running := s.procs[p].snap;
      t.snap.Some? && p !in t.procs && t.lease.None? && RecordsStop(t.snap.value, running, Token(s, running.attempt))
  {
    var s1 := Step(s, Act(p, outcome, giveUp));
    var s2 := Step(s1, Quiet(p));
    assert s1.procs[p] == LastCheck(s.procs[p].snap, outcome) && s1 == s.(procs := s1.procs);
    assert s2.procs[p] == ReadStop(s.procs[p].snap) && s2 == s.(procs := s2.procs);
    TwoActs(s1, p);
    ActsCompose(s1, p, 1, 3);
    hide StateAfter, Step;
    StopReadAlone(s2, p);
  }

  lemma {:induction false} StopReadAlone(s: State, p: Pid)
    requires p in s.procs && s.procs[p].ReadStop? && s.snap == Some(s.procs[p].snap) && s.lease == Some(p)
    requires s.procs[p].snap.status.Running? && ValidShape(s.procs[p].snap)
    ensures var t := StateAfter(s, Acts(p, 3)); var running := s.procs[p].snap;
      t.snap.Some? && p !in t.procs && t.lease.None? && RecordsStop(t.snap.value, running, Token(s, running.attempt))
  {
    var running := s.procs[p].snap;
    var s1 := Step(s, Quiet(p));
    assert s1.procs[p] == Swap(running, StoppedSnapshot(running, Token(s, running.attempt)), Leave) && s1.snap == s.snap && s1.lease == s.lease;
    TwoActs(s, p);
    TwoActs(s1, p);
    ActsCompose(s, p, 1, 2);
    hide StateAfter;
    SwapAlone(s1, p);
  }

  // ----- A lone execution --------------------------------------------------------------------

  // A run that has succeeded, or has failed and may not be resumed, is left alone.
  lemma {:induction false} FinishedRunIsLeftAlone(events: seq<Event>, p: Pid, allowFailed: bool)
    requires var s := StateAfter(EMPTY, events);
      && s.lease.None? && p !in s.procs && s.snap.Some?
      && (s.snap.value.status.Succeeded? || (s.snap.value.status.Failed? && !allowFailed))
    ensures var s := StateAfter(EMPTY, events); var t := Step(Step(s, Execute(p, allowFailed)), Quiet(p));
      t.snap == s.snap && t.history == s.history && t.tokens == s.tokens && t.procs == s.procs && t.lease.None?
  {
    hide StateAfter, Freed;
  }

  // An execution may start the next attempt.
  predicate MayStart(s: State, allowFailed: bool) {
    && s.snap.Some?
    && match s.snap.value.status
       case Paused => true
       case Pending => s.snap.value.attempt !in s.tokens
       case Running => s.snap.value.attempt !in s.tokens
       case Failed => allowFailed && s.snap.value.attempt !in s.tokens
       case Succeeded => false
  }

  // The next attempt after prev, just started.
  ghost predicate NextAttempt(prev: Snapshot, next: Snapshot) {
    && next.status.Running? && next.attempt == prev.attempt + 1 && next.run == prev.run
    && next.epoch == prev.epoch + (if prev.status.Failed? then 1 else 0)
    && next.awaiting.None? && next.result.None? && next.error.None?
    && next.interrupted == (prev.interrupted || prev.status.Running?)
  }

  // Alone, it does start it within seven steps, an orphaned attempt first being recorded
  // as interrupted.
  lemma {:induction false} LoneExecutionStarts(events: seq<Event>, p: Pid, allowFailed: bool) returns (n: nat)
    requires var s := StateAfter(EMPTY, events); s.lease.None? && p !in s.procs && MayStart(s, allowFailed)
    ensures var s := StateAfter(EMPTY, events); var t := StateAfter(Step(s, Execute(p, allowFailed)), Acts(p, n));
      && n <= 7 && t.snap.Some? && p in t.procs && t.procs[p] == FirstCheck(t.snap.value)
      && NextAttempt(s.snap.value, t.snap.value)
  {
    EmptyFits();
    RunKeepsInv(EMPTY, events);
    var s := StateAfter(EMPTY, events);
    StoredShape(s);
    hide *;
    n := StartsAlone(s, p, allowFailed);
  }

  lemma {:induction false} StartsAlone(s: State, p: Pid, allowFailed: bool) returns (n: nat)
    requires s.lease.None? && p !in s.procs && MayStart(s, allowFailed) && s.snap.Some? && ValidShape(s.snap.value)
    ensures var t := StateAfter(Step(s, Execute(p, allowFailed)), Acts(p, n));
      && n <= 7 && t.snap.Some? && p in t.procs && t.procs[p] == FirstCheck(t.snap.value)
      && NextAttempt(s.snap.value, t.snap.value)
  {
    assert !s.snap.value.status.Succeeded?;
    hide StateAfter, Step, MayStart, ValidShape, NextAttempt;
    var s0 := Step(s, Execute(p, allowFailed));
    ReaderAlone(s, p, allowFailed);
    TwoActs(s0, p);
    var s2 := StateAfter(s0, Acts(p, 2));
    if s.snap.value.status.Running? {
      n := 7;
      RecoveredStarts(s2, p, s.snap.value);
      ActsCompose(s0, p, 2, 5);
    } else {
      n := 5;
      ResumedAlone(s2, p, s.snap.value);
      StartIsNext(s.snap.value);
      ActsCompose(s0, p, 2, 3);
    }
  }

  lemma {:induction false} RecoveredStarts(s: State, p: Pid, snap: Snapshot)
    requires p in s.procs && s.procs[p] == Swap(snap, RecoveredSnapshot(snap), Resume) && s.snap == Some(snap)
    requires snap.status.Running? && ValidShape(snap)
    ensures var t := StateAfter(s, Acts(p, 5));
      t.snap.Some? && p in t.procs && t.procs[p] == FirstCheck(t.snap.value) && NextAttempt(snap, t.snap.value)
  {
    hide StateAfter, Step;
    RecoveredAlone(s, p);
    ResumedAlone(StateAfter(s, Acts(p, 2)), p, RecoveredSnapshot(snap));
    ActsCompose(s, p, 2, 3);
  }

  lemma {:induction false} StartIsNext(snap: Snapshot)
    requires !snap.status.Running?
    ensures NextAttempt(snap, RunningSnapshot(snap))
  {
  }

  lemma {:induction false} ReaderAlone(s: State, p: Pid, allowFailed: bool)
    requires s.lease.None? && p !in s.procs && MayStart(s, allowFailed)
    ensures var t := Step(Step(Step(s, Execute(p, allowFailed)), Quiet(p)), Quiet(p)); var snap := s.snap.value;
      && p in t.procs && t.snap == s.snap
      && t.procs[p] == if snap.status.Running? then Swap(snap, RecoveredSnapshot(snap), Resume) else ResumeRun(snap)
  {
    var s1 := Step(Step(s, Execute(p, allowFailed)), Quiet(p));
    assert s1.procs[p] == ReadToken(s.snap.value) && s1.snap == s.snap && s1.tokens == s.tokens;
  }

  lemma {:induction false} RecoveredAlone(s: State, p: Pid)
    requires p in s.procs && s.procs[p].Swap? && s.procs[p].after.Resume? && s.snap == Some(s.procs[p].prev)
    requires s.procs[p].prev.status.Running? && ValidShape(s.procs[p].prev)
    requires s.procs[p].next == RecoveredSnapshot(s.procs[p].prev)
    ensures var t := StateAfter(s, Acts(p, 2)); var next := s.procs[p].next;
      p in t.procs && t.procs[p] == ResumeRun(next) && t.snap == Some(next)
  {
    assert Accepts(s.procs[p].prev, s.procs[p].next);
    TwoActs(s, p);
    hide StateAfter, Step, Accepts;
    SwapGoesOn(s, p);
  }

  lemma {:induction false} ResumedAlone(s: State, p: Pid, snap: Snapshot)
    requires p in s.procs && s.procs[p] == ResumeRun(snap) && s.snap == Some(snap)
    requires snap.status.Pending? || snap.status.Paused? || snap.status.Failed?
    ensures var t := StateAfter(s, Acts(p, 3));
      t.snap == Some(RunningSnapshot(snap)) && p in t.procs && t.procs[p] == FirstCheck(RunningSnapshot(snap))
  {
    hide *;
    NextIsAccepted(snap);
    ResumptionOffers(s, p, snap);
    var s1 := Step(s, Quiet(p));
    TwoActs(s, p);
    TwoActs(s1, p);
    ActsCompose(s, p, 1, 2);
    SwapGoesOn(s1, p);
  }

  lemma {:induction false} NextIsAccepted(snap: Snapshot)
    requires snap.status.Pending? || snap.status.Paused? || snap.status.Failed?
    ensures Accepts(snap, RunningSnapshot(snap))
  {
  }

  lemma {:induction false} ResumptionOffers(s: State, p: Pid, snap: Snapshot)
    requires p in s.procs && s.procs[p] == ResumeRun(snap)
    ensures var t := Step(s, Quiet(p)); p in t.procs && t.procs[p] == Swap(snap, RunningSnapshot(snap), Handle) && t.snap == s.snap
  {
  }

  // An accepted write after which its writer goes on.
  lemma {:induction false} SwapGoesOn(s: State, p: Pid)
    requires p in s.procs && s.procs[p].Swap? && s.snap == Some(s.procs[p].prev) && Accepts(s.procs[p].prev, s.procs[p].next)
    ensures var t := Step(Step(s, Quiet(p)), Quiet(p)); var Swap(prev, next, after) := s.procs[p];
      && (after.Resume? ==> p in t.procs && t.procs[p] == ResumeRun(next) && t.snap == Some(next))
      && (after.Handle? ==> p in t.procs && t.procs[p] == FirstCheck(next) && t.snap == Some(next))
  {
    var Swap(prev, next, after) := s.procs[p];
    var s1 := Step(s, Quiet(p));
    hide Accepts, Freed;
    assert s1.procs[p] == Replace(prev, next, after) && s1.snap == s.snap;
  }

  ghost predicate Records(s: Snapshot, outcome: Outcome) {
    && (s.status.Succeeded? <==> outcome.ReturnsSucceeded? && (outcome.result.None? || outcome.verifies))
    && (s.status.Succeeded? ==> s.result == outcome.result)
    && (s.status.Paused? <==> outcome.ReturnsPaused? && ValidPause(outcome.pause) && (!outcome.pause.hasRequest || outcome.verifies))
    && (s.status.Paused? ==> s.awaiting == Some(ByHandler(outcome.pause)))
    && (s.status.Failed? <==> !s.status.Succeeded? && !s.status.Paused?)
    && (s.status.Failed? ==> s.error == Some(if outcome.ReturnsFailed? && ValidError(outcome.error) then outcome.error else Unhandled))
  }

  lemma {:induction false} FinalIsAccepted(running: Snapshot, outcome: Outcome)
    requires running.status.Running? && ValidShape(running)
    ensures var next := FinalSnapshot(running, outcome);
      Accepts(running, next) && SameAttempt(running, next) && Records(next, outcome)
  {
  }

  // An attempt left RUNNING by a crash, with its token, is paused by the next run; so is
  // one that never started.
  lemma {:induction false} NextRunPausesStoppedAttempt(events: seq<Event>, p: Pid, allowFailed: bool)
    requires var s := StateAfter(EMPTY, events);
      && s.lease.None? && p !in s.procs && s.snap.Some? && s.snap.value.attempt in s.tokens
      && (s.snap.value.status.Running? || s.snap.value.status.Pending?)
    ensures var s := StateAfter(EMPTY, events); var t := StateAfter(Step(s, Execute(p, allowFailed)), Acts(p, 4));
      && t.snap.Some? && t.lease.None? && p !in t.procs
      && RecordsStop(t.snap.value, s.snap.value, Token(s, s.snap.value.attempt))
  {
    EmptyFits();
    RunKeepsInv(EMPTY, events);
    PausesStoppedAttempt(StateAfter(EMPTY, events), p, allowFailed);
  }

  lemma {:induction false} PausesStoppedAttempt(s: State, p: Pid, allowFailed: bool)
    requires Inv(s) && s.lease.None? && p !in s.procs && s.snap.Some? && s.snap.value.attempt in s.tokens
    requires s.snap.value.status.Running? || s.snap.value.status.Pending?
    ensures var t := StateAfter(Step(s, Execute(p, allowFailed)), Acts(p, 4));
      t.snap == Some(StoppedSnapshot(s.snap.value, Token(s, s.snap.value.attempt))) && t.lease.None? && p !in t.procs
  {
    StoredShape(s);
    var snap := s.snap.value;
    var s0 := Step(s, Execute(p, allowFailed));
    FourActs(s0, p);
    hide Inv, StateAfter, Freed;
    var s1 := Step(s0, Quiet(p));
    assert s1.procs[p] == ReadToken(snap) && s1.snap == s.snap && s1.tokens == s.tokens && s1.lease == Some(p);
    StopIsTaken(s1, p);
  }

  lemma {:induction false} StopIsTaken(s: State, p: Pid)
    requires p in s.procs && s.snap.Some? && s.procs[p] == ReadToken(s.snap.value) && s.lease == Some(p)
    requires s.snap.value.attempt in s.tokens && ValidShape(s.snap.value)
    requires s.snap.value.status.Running? || s.snap.value.status.Pending?
    ensures var t := Step(Step(Step(s, Quiet(p)), Quiet(p)), Quiet(p));
      t.snap == Some(StoppedSnapshot(s.snap.value, Token(s, s.snap.value.attempt))) && t.lease.None? && p !in t.procs
  {
    var snap := s.snap.value;
    var s1 := Step(s, Quiet(p));
    assert s1.procs[p] == Swap(snap, StoppedSnapshot(snap, Token(s, snap.attempt)), Leave) && s1.snap == s.snap && s1.lease == s.lease;
    assert Accepts(snap, StoppedSnapshot(snap, Token(s, snap.attempt)));
    hide Step, Accepts;
    SwapAlone(s1, p);
  }

  // Resuming a FAILED run alone starts the next attempt exactly when its last attempt
  // has no token; otherwise the resume leaves the run as it was.
  lemma {:induction false} FailedRunResumesIff(events: seq<Event>, p: Pid)
    requires var s := StateAfter(EMPTY, events);
      s.lease.None? && p !in s.procs && s.snap.Some? && s.snap.value.status.Failed?
    ensures var s := StateAfter(EMPTY, events); var t := StateAfter(Step(s, Execute(p, true)), Acts(p, 5));
      t.snap == if s.snap.value.attempt in s.tokens then s.snap else Some(RunningSnapshot(s.snap.value))
  {
    EmptyFits();
    RunKeepsInv(EMPTY, events);
    FailedResumes(StateAfter(EMPTY, events), p);
  }

  // A lone resume of a FAILED run that has read its token.
  lemma {:induction false} FailedIsTaken(s: State, p: Pid)
    requires p in s.procs && s.snap.Some? && s.procs[p] == ReadToken(s.snap.value)
    requires s.snap.value.status.Failed? && ValidShape(s.snap.value)
    ensures var snap := s.snap.value; var t := Step(Step(Step(Step(s, Quiet(p)), Quiet(p)), Quiet(p)), Quiet(p));
      t.snap == if snap.attempt in s.tokens then s.snap else Some(RunningSnapshot(snap))
  {
    var snap := s.snap.value;
    var s2 := Step(s, Quiet(p));
    hide Freed;
    if snap.attempt in s.tokens {
      assert s2.procs[p] == Swap(snap, StoppedSnapshot(snap, Token(s, snap.attempt)), Leave) && s2.snap == s.snap;
      SwapAlone(s2, p);
      assert Step(Exit(s2, p), Quiet(p)) == Exit(s2, p);
    } else {
      assert s2.procs[p] == ResumeRun(snap);
      var s3 := Step(s2, Quiet(p));
      assert s3.procs[p] == Swap(snap, RunningSnapshot(snap), Handle) && s3.snap == s.snap;
      SwapAlone(s3, p);
    }
  }

  lemma {:induction false} FailedResumes(s: State, p: Pid)
    requires Inv(s) && s.lease.None? && p !in s.procs && s.snap.Some? && s.snap.value.status.Failed?
    ensures var t := StateAfter(Step(s, Execute(p, true)), Acts(p, 5));
      t.snap == if s.snap.value.attempt in s.tokens then s.snap else Some(RunningSnapshot(s.snap.value))
  {
    StoredShape(s);
    var s0 := Step(s, Execute(p, true));
    FourActs(s0, p);
    ActOnce(s0, p, 4);
    hide Inv, StateAfter, Freed;
    var s1 := Step(s0, Quiet(p));
    assert s1.procs[p] == ReadToken(s.snap.value) && s1.snap == s.snap && s1.tokens == s.tokens;
    hide Step;
    FailedIsTaken(s1, p);
  }

  // A FAILED attempt has a token and no lease holder is past the token check.
  ghost predicate Stranded(s: State, failed: Snapshot) {
    && Inv(s) && s.snap == Some(failed) && failed.status.Failed? && failed.attempt in s.tokens
    && forall p :: p in s.procs && HoldsLease(s.procs[p]) ==> CannotWrite(s.procs[p], failed)
  }

  predicate CannotWrite(p: Proc, failed: Snapshot) {
    match p
    case ReadRun(_) => true
    case ReadToken(snap) => snap == failed
    case Swap(prev, next, _) => prev == failed && next.status.Paused? && next.error.Some?
    case AskLocked(_) => true
    case _ => false
  }

  lemma {:induction false} StrandedStep(s: State, e: Event, failed: Snapshot)
    requires Stranded(s, failed)
    ensures Stranded(Step(s, e), failed)
  {
    StepKeepsInv(s, e);
    SnapshotLifetime(s.history, |s.history| - 1);
    hide Inv, ProcFits, RecordFits, HistoryFits;
    match e
    case Act(p, outcome, giveUp) =>
      if p in s.procs {
        StrandedAct(s, p, outcome, giveUp, failed);
      }
    case _ =>
  }

  lemma {:induction false} StrandedAct(s: State, p: Pid, outcome: Outcome, giveUp: bool, failed: Snapshot)
    requires Stranded(s, failed) && failed.error.Some? && p in s.procs
    ensures var t := Step(s, Act(p, outcome, giveUp));
      && t.snap == s.snap && failed.attempt in t.tokens
      && forall q :: q in t.procs && HoldsLease(t.procs[q]) ==> CannotWrite(t.procs[q], failed)
  {
    assert ProcFits(s, s.procs[p]);
    assert CannotWrite(s.procs[p], failed) || !HoldsLease(s.procs[p]);
    StepGrows(s, Act(p, outcome, giveUp));
    hide Inv, RecordFits, HistoryFits, Offered;
    if IsCreator(s.procs[p]) {
      StrandedCreator(s, p);
    } else if IsRequester(s.procs[p]) {
      StrandedRequester(s, p, giveUp, failed);
    } else {
      StrandedExecutor(s, p, outcome, giveUp, failed);
    }
  }

  // All processes but p stay where they are, and p, if it is still there with the
  // lease, cannot write.
  ghost predicate StillStranded(s: State, t: State, p: Pid, failed: Snapshot) {
    && t.snap == s.snap
    && (forall q :: q in t.procs && q != p ==> q in s.procs && t.procs[q] == s.procs[q])
    && (p in t.procs && HoldsLease(t.procs[p]) ==> CannotWrite(t.procs[p], failed))
  }

  lemma {:induction false} StrandedCreator(s: State, p: Pid)
    requires p in s.procs && IsCreator(s.procs[p]) && ProcFits(s, s.procs[p]) && s.snap.Some?
    ensures StillStranded(s, CreatorStep(s, p), p, s.snap.value)
  {
  }

  lemma {:induction false} StrandedRequester(s: State, p: Pid, giveUp: bool, failed: Snapshot)
    requires p in s.procs && IsRequester(s.procs[p]) && s.snap == Some(failed) && failed.status.Failed?
    requires HoldsLease(s.procs[p]) ==> CannotWrite(s.procs[p], failed)
    ensures StillStranded(s, RequesterStep(s, p, giveUp), p, failed)
  {
  }

  lemma {:induction false} StrandedExecutor(s: State, p: Pid, outcome: Outcome, giveUp: bool, failed: Snapshot)
    requires p in s.procs && !IsCreator(s.procs[p]) && !IsRequester(s.procs[p])
    requires s.snap == Some(failed) && failed.status.Failed? && failed.error.Some? && failed.attempt in s.tokens
    requires CannotWrite(s.procs[p], failed)
    ensures StillStranded(s, ExecutorStep(s, p, outcome, giveUp), p, failed)
  {
  }

  lemma {:induction false} StrandedForever(s: State, failed: Snapshot, events: seq<Event>)
    requires Stranded(s, failed)
    ensures StateAfter(s, events).snap == Some(failed) && Stranded(StateAfter(s, events), failed)
    decreases |events|
  {
    if events != [] {
      StrandedForever(s, failed, events[..|events| - 1]);
      StrandedStep(StateAfter(s, events[..|events| - 1]), events[|events| - 1], failed);
    }
  }

  // A FAILED run whose last attempt has a token, once its lease is free, stays as it
  // is whatever is executed, requested or crashes afterwards.
  lemma {:induction false} FailedWithTokenIsFinal(before: seq<Event>, later: seq<Event>)
    requires var s := StateAfter(EMPTY, before);
      s.lease.None? && s.snap.Some? && s.snap.value.status.Failed? && s.snap.value.attempt in s.tokens
    ensures StateAfter(EMPTY, before + later).snap == StateAfter(EMPTY, before).snap
  {
    var s := StateAfter(EMPTY, before);
    EmptyFits();
    RunKeepsInv(EMPTY, before);
    FreeLeaseStrands(s);
    StrandedForever(s, s.snap.value, later);
    RunsCompose(EMPTY, before, later);
  }

  lemma {:induction false} FreeLeaseStrands(s: State)
    requires Inv(s) && s.lease.None? && s.snap.Some? && s.snap.value.status.Failed? && s.snap.value.attempt in s.tokens
    ensures Stranded(s, s.snap.value)
  {
  }

  // How a run gets there: the handler raises although its attempt was asked to stop.
  lemma {:induction false} RaisingAfterStopIsFinal(before: seq<Event>, later: seq<Event>, p: Pid)
    requires var s := StateAfter(EMPTY, before);
      p in s.procs && s.procs[p].Handler? && s.procs[p].snap.attempt in s.tokens
    ensures var s := StateAfter(EMPTY, before);
      var raised := Step(Step(Step(s, Act(p, Raises, false)), Quiet(p)), Quiet(p));
      StateAfter(raised, later).snap == Some(FailedSnapshot(s.procs[p].snap, Unhandled))
  {
    var s := StateAfter(EMPTY, before);
    EmptyFits();
    RunKeepsInv(EMPTY, before);
    RaisingStrands(s, p);
    StrandedForever(Step(Step(Step(s, Act(p, Raises, false)), Quiet(p)), Quiet(p)), FailedSnapshot(s.procs[p].snap, Unhandled), later);
  }

  lemma {:induction false} RaisingStrands(s: State, p: Pid)
    requires Inv(s) && p in s.procs && s.procs[p].Handler? && s.procs[p].snap.attempt in s.tokens
    ensures var t := Step(Step(Step(s, Act(p, Raises, false)), Quiet(p)), Quiet(p));
      Stranded(t, FailedSnapshot(s.procs[p].snap, Unhandled))
  {
    var s1 := Step(s, Act(p, Raises, false));
    RaisingOffersFailure(s, p);
    SwapAlone(s1, p);
    StepKeepsInv(s1, Quiet(p));
    StepKeepsInv(Step(s1, Quiet(p)), Quiet(p));
    LeaseIsFree(s1, p);
    hide Inv, Step;
    FreeLeaseStrands(Step(Step(s1, Quiet(p)), Quiet(p)));
  }

  lemma {:induction false} RaisingOffersFailure(s: State, p: Pid)
    requires Inv(s) && p in s.procs && s.procs[p].Handler?
    ensures var t := Step(s, Act(p, Raises, false)); var snap := s.procs[p].snap;
      && Inv(t) && p in t.procs && t.procs[p] == Swap(snap, FailedSnapshot(snap, Unhandled), Leave)
      && t.snap == Some(snap) && t.tokens == s.tokens && Accepts(snap, FailedSnapshot(snap, Unhandled))
  {
    StepKeepsInv(s, Act(p, Raises, false));
    assert ProcFits(s, s.procs[p]);
    StoredShape(s);
  }

  lemma {:induction false} LeaseIsFree(s: State, p: Pid)
    requires Inv(s) && p in s.procs && HoldsLease(s.procs[p])
    ensures Exit(s, p).lease.None?
  {
  }

  // ----- A run that ends that way ----------------------------------------------------------

  ghost predicate Reachable(s: State) {
    exists events :: StateAfter(EMPTY, events) == s
  }

  lemma {:induction false} StepIsReachable(s: State, e: Event)
    requires Reachable(s)
    ensures Reachable(Step(s, e))
  {
    var events :| StateAfter(EMPTY, events) == s;
    assert (events + [e])[..|events|] == events;
    assert StateAfter(EMPTY, events + [e]) == Step(s, e);
  }

  function Idle(snap: Snapshot): State {
    State(Some(snap), map[], map[], None, None, map[], [snap], {}, {})
  }

  // An executor alone, holding the lease over the current snapshot.
  function Alone(snap: Snapshot, history: seq<Snapshot>, proc: Proc): State {
    State(Some(snap), map[], map[], Some(1), None, map[1 := proc], history, {}, {})
  }

  function Creating(run: int, lease: Option<Pid>, proc: Proc): State {
    State(None, map[], map[], None, lease, map[0 := proc], [], {}, {})
  }

  lemma {:induction false} CreatedIsReachable(run: int)
    ensures Reachable(Idle(Initial(run)))
  {
    assert StateAfter(EMPTY, []) == EMPTY;
    StepIsReachable(EMPTY, Create(0, run));
    assert Step(EMPTY, Create(0, run)) == Creating(run, None, WantCreate(run));
    CreationSteps(run);
    hide Step, Reachable;
    StepIsReachable(Creating(run, None, WantCreate(run)), Quiet(0));
    StepIsReachable(Creating(run, Some(0), CheckCreate(run)), Quiet(0));
    StepIsReachable(Creating(run, Some(0), WriteCreate(run)), Quiet(0));
  }

  lemma {:induction false} CreationSteps(run: int)
    ensures Step(Creating(run, None, WantCreate(run)), Quiet(0)) == Creating(run, Some(0), CheckCreate(run))
    ensures Step(Creating(run, Some(0), CheckCreate(run)), Quiet(0)) == Creating(run, Some(0), WriteCreate(run))
    ensures Step(Creating(run, Some(0), WriteCreate(run)), Quiet(0)) == Idle(Initial(run))
  {
  }

  lemma {:induction false} SwapIsReachable(run: int)
    ensures var pending := Initial(run);
      Reachable(Alone(pending, [pending], Swap(pending, RunningSnapshot(pending), Handle)))
  {
    var snap := Initial(run);
    CreatedIsReachable(run);
    StepIsReachable(Idle(snap), Execute(1, false));
    assert Step(Idle(snap), Execute(1, false)) == Alone(snap, [snap], ReadRun(false));
    PendingIsTaken(snap);
    hide Step, Reachable;
    StepIsReachable(Alone(snap, [snap], ReadRun(false)), Quiet(1));
    StepIsReachable(Alone(snap, [snap], ReadToken(snap)), Quiet(1));
    StepIsReachable(Alone(snap, [snap], ResumeRun(snap)), Quiet(1));
  }

  // The steps of an executor alone on a pending run.
  lemma {:induction false} PendingIsTaken(snap: Snapshot)
    requires snap.status.Pending?
    ensures Step(Alone(snap, [snap], ReadRun(false)), Quiet(1)) == Alone(snap, [snap], ReadToken(snap))
    ensures Step(Alone(snap, [snap], ReadToken(snap)), Quiet(1)) == Alone(snap, [snap], ResumeRun(snap))
    ensures Step(Alone(snap, [snap], ResumeRun(snap)), Quiet(1)) == Alone(snap, [snap], Swap(snap, RunningSnapshot(snap), Handle))
  {
  }

  lemma {:induction false} HandlerIsReachable(run: int)
    ensures var running := RunningSnapshot(Initial(run)); Reachable(Alone(running, [Initial(run), running], Handler(running)))
  {
    var snap, running := Initial(run), RunningSnapshot(Initial(run));
    SwapIsReachable(run);
    AttemptStarts(snap);
    hide Step, Reachable, RunningSnapshot, Initial;
    StepIsReachable(Alone(snap, [snap], Swap(snap, running, Handle)), Quiet(1));
    StepIsReachable(Alone(snap, [snap], Replace(snap, running, Handle)), Quiet(1));
    StepIsReachable(Alone(running, [snap, running], FirstCheck(running)), Quiet(1));
  }

  lemma {:induction false} AttemptStarts(snap: Snapshot)
    requires snap.status.Pending? && ValidShape(snap)
    ensures var running := RunningSnapshot(snap);
      && Step(Alone(snap, [snap], Swap(snap, running, Handle)), Quiet(1)) == Alone(snap, [snap], Replace(snap, running, Handle))
      && Step(Alone(snap, [snap], Replace(snap, running, Handle)), Quiet(1)) == Alone(running, [snap, running], FirstCheck(running))
      && Step(Alone(running, [snap, running], FirstCheck(running)), Quiet(1)) == Alone(running, [snap, running], Handler(running))
  {
  }

  // A run is created, executed, asked to stop, and its handler raises: FAILED, with a
  // token, its lease free.
  lemma {:induction false} StrandedRunIsReachable(run: int, request: StopRequest) returns (events: seq<Event>)
    ensures var s := StateAfter(EMPTY, events);
      s.lease.None? && s.snap.Some? && s.snap.value.status.Failed? && s.snap.value.attempt in s.tokens
  {
    var running := RunningSnapshot(Initial(run));
    HandlerIsReachable(run);
    var s := Alone(running, [Initial(run), running], Handler(running));
    var s1 := Step(s, RequestStop(2, request));
    StepIsReachable(s, RequestStop(2, request));
    RequestLeavesHandler(s, request);
    StepIsReachable(s1, Quiet(2));
    StepIsReachable(Step(s1, Quiet(2)), Quiet(2));
    StepIsReachable(Step(Step(s1, Quiet(2)), Quiet(2)), Quiet(2));
    StepIsReachable(Step(Step(Step(s1, Quiet(2)), Quiet(2)), Quiet(2)), Quiet(2));
    hide Step, Reachable;
    events := RaisedRun(Step(Step(Step(Step(s1, Quiet(2)), Quiet(2)), Quiet(2)), Quiet(2)), 1);
  }

  // Another process asks the running attempt to stop, in four steps.
  lemma {:induction false} RequestLeavesHandler(s: State, request: StopRequest)
    requires s.procs.Keys == {1} && s.procs[1].Handler? && s.tokens == map[] && s.tokenLeases == map[]
    requires s.snap == Some(s.procs[1].snap) && s.procs[1].snap.status.Running?
    ensures var t := Step(Step(Step(Step(Step(s, RequestStop(2, request)), Quiet(2)), Quiet(2)), Quiet(2)), Quiet(2));
      1 in t.procs && t.procs[1] == s.procs[1] && s.procs[1].snap.attempt in t.tokens
  {
    var snap := s.procs[1].snap;
    var s1 := Step(Step(s, RequestStop(2, request)), Quiet(2));
    assert s1.procs == s.procs[2 := AskToken(snap, request, Unlocked)];
    var s2 := Step(s1, Quiet(2));
    assert s2.procs == s.procs[2 := CheckToken(snap, request, Unlocked)];
    var s3 := Step(s2, Quiet(2));
    assert s3.procs == s.procs[2 := WriteToken(snap, request, Unlocked)];
  }

  lemma {:induction false} RaisedRun(s: State, p: Pid) returns (events: seq<Event>)
    requires Reachable(s) && p in s.procs && s.procs[p].Handler? && s.procs[p].snap.attempt in s.tokens
    ensures var t := StateAfter(EMPTY, events);
      t.lease.None? && t.snap.Some? && t.snap.value.status.Failed? && t.snap.value.attempt in t.tokens
  {
    var before :| StateAfter(EMPTY, before) == s;
    EmptyFits();
    RunKeepsInv(EMPTY, before);
    RaisingOffersFailure(s, p);
    var s1 := Step(s, Act(p, Raises, false));
    SwapAlone(s1, p);
    LeaseIsFree(s1, p);
    var s2 := Step(s1, Quiet(p));
    StepIsReachable(s, Act(p, Raises, false));
    StepIsReachable(s1, Quiet(p));
    StepIsReachable(s2, Quiet(p));
    hide Step, StateAfter;
    events :| StateAfter(EMPTY, events) == Step(s2, Quiet(p));
  }
}
