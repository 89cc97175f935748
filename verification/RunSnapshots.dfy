// Run snapshots: their validation, the compare-and-swap store, and what every
// accepted history of snapshots looks like.
module RunSnapshots {
  import opened Common

  datatype Status = Pending | Running | Succeeded | Failed | Paused

  datatype StopRequest = StopRequest(at: int, reason: Option<string>)

  // Why a paused run waits. The kernel makes the first two; a handler the third.
  datatype Awaiting =
    | ExecutionStopped(attempt: nat, request: Option<StopRequest>)
    | ExecutionInterrupted(attempt: nat)
    | ByHandler(pause: HandlerPause)

  datatype HandlerPause = HandlerPause(validKey: bool, inputRequired: bool, hasRequest: bool, hasContract: bool)

  datatype RunError = Unhandled | Reported(wellFormed: bool)

  // run stands for the immutable run id and creation time.
  datatype Snapshot = Snapshot(run: int, revision: nat, status: Status, attempt: nat, awaiting: Option<Awaiting>,
                               result: Option<int>, error: Option<RunError>, interrupted: bool, epoch: nat)

  function Initial(run: int): Snapshot {
    Snapshot(run, 0, Pending, 0, None, None, None, false, 0)
  }

  predicate ValidAwaiting(a: Awaiting) {
    a.ByHandler? ==> ValidPause(a.pause)
  }

  predicate ValidPause(p: HandlerPause) {
    p.validKey && (if p.inputRequired then p.hasRequest && p.hasContract else !p.hasContract)
  }

  predicate ValidError(e: RunError) {
    e.Reported? ==> e.wellFormed
  }

  // The fields a status permits.
  predicate ValidShape(s: Snapshot) {
    && (if s.status.Paused? then s.awaiting.Some? && ValidAwaiting(s.awaiting.value) else s.awaiting.None?)
    && (s.result.Some? ==> s.status.Succeeded?)
    && (s.error.Some? <==> s.status.Failed?)
    && (s.error.Some? ==> ValidError(s.error.value))
  }

  predicate AllowedTransition(from: Status, to: Status) {
    match from
    case Pending => to.Running? || to.Paused?
    case Running => to.Succeeded? || to.Paused? || to.Failed?
    case Paused => to.Running?
    case Failed => to.Running?
    case Succeeded => false
  }

  predicate Validate(previous: Option<Snapshot>, next: Snapshot) {
    && ValidShape(next)
    && (previous.Some? ==>
          var p := previous.value;
          && next.run == p.run
          && AllowedTransition(p.status, next.status)
          && next.attempt == (if next.status.Running? then p.attempt + 1 else p.attempt)
          && next.epoch == (if p.status.Failed? && next.status.Running? then p.epoch + 1 else p.epoch))
  }

  // Compare-and-swap accepts next over previous.
  predicate Accepts(previous: Snapshot, next: Snapshot) {
    next.revision == previous.revision + 1 && Validate(Some(previous), next)
  }

  datatype StoreFault = NotFound | RevisionConflict | InvalidTransition

  class SnapshotStore {
    var current: Option<Snapshot>
    ghost var history: seq<Snapshot>

    ghost predicate Valid()
      reads this
    {
      if current.None? then history == []
      else history != [] && history[|history| - 1] == current.value && IsHistory(history)
    }

    constructor ()
      ensures Valid() && current.None?
    {
      current, history := None, [];
    }

    // The stored snapshot, or a fresh PENDING one.
    method CreateRun(run: int) returns (s: Snapshot)
      requires Valid()
      modifies this
      ensures Valid() && current == Some(s)
      ensures if old(current).None? then s == Initial(run) && history == [s]
              else history == old(history) && current == old(current)
    {
      if current.Some? {
        return current.value;
      }
      s := Initial(run);
      current, history := Some(s), [s];
    }

    // Replaces exactly the revision the caller read, or changes nothing.
    method CompareAndSwap(expected: nat, value: Snapshot) returns (r: Result<Snapshot, StoreFault>)
      requires Valid()
      modifies this
      ensures Valid()
      ensures r.Ok? <==> old(current).Some? && old(current).value.revision == expected && Accepts(old(current).value, value)
      ensures if r.Ok? then r.value == value && history == old(history) + [value]
              else history == old(history) && current == old(current)
      ensures r == Err(RevisionConflict) <==>
        old(current).Some? && !(old(current).value.revision == expected && value.revision == expected + 1)
    {
      if current.None? {
        return Err(NotFound);
      }
      if current.value.revision != expected || value.revision != expected + 1 {
        return Err(RevisionConflict);
      }
      if !Validate(current, value) {
        return Err(InvalidTransition);
      }
      AppendKeepsHistory(history, value);
      current, history := Some(value), history + [value];
      return Ok(value);
    }
  }

  // ----- Accepted histories ---------------------------------------------------------

  ghost predicate IsHistory(h: seq<Snapshot>) {
    && h != [] && h[0] == Initial(h[0].run)
    && forall i :: 0 < i < |h| ==> Accepts(h[i - 1], h[i])
  }

  lemma {:induction false} AppendKeepsHistory(h: seq<Snapshot>, next: Snapshot)
    requires IsHistory(h) && Accepts(h[|h| - 1], next)
    ensures IsHistory(h + [next])
  {
  }

  // How often the run entered RUNNING.
  function Starts(h: seq<Snapshot>): nat {
    if h == [] then 0 else Starts(h[..|h| - 1]) + if h[|h| - 1].status.Running? then 1 else 0
  }

  // How often it entered RUNNING from FAILED.
  function Recoveries(h: seq<Snapshot>): nat {
    if |h| < 2 then 0
    else Recoveries(h[..|h| - 1]) + if h[|h| - 1].status.Running? && h[|h| - 2].status.Failed? then 1 else 0
  }

  // Every snapshot of an accepted history: it is of the one run, its fields fit its status,
  // a handler's pause or error is well formed, its counters count what they claim, and its
  // revision is determined by them.
  lemma {:induction false} SnapshotLifetime(h: seq<Snapshot>, i: nat)
    requires IsHistory(h) && i < |h|
    ensures var s := h[i];
      && s.run == h[0].run
      && (s.awaiting.Some? && s.awaiting.value.ByHandler? ==>
            var pause := s.awaiting.value.pause;
            pause.validKey && (pause.inputRequired <==> pause.hasContract) && (pause.inputRequired ==> pause.hasRequest))
      && (s.error.Some? && s.error.value.Reported? ==> s.error.value.wellFormed)
      && (s.awaiting.Some? <==> s.status.Paused?)
      && (s.error.Some? <==> s.status.Failed?)
      && (s.result.Some? ==> s.status.Succeeded?)
      && (s.status.Pending? <==> i == 0)
      && (s.status.Succeeded? ==> i == |h| - 1)
      && s.attempt == Starts(h[..i + 1])
      && s.epoch == Recoveries(h[..i + 1])
      && s.revision == i
      && s.revision + (if s.status.Running? then 1 else 0) ==
           2 * s.attempt + (if i > 0 && h[1].status.Paused? then 1 else 0)
    decreases i
  {
    var upTo := h[..i + 1];
    assert upTo[..i] == h[..i] && upTo[i] == h[i];
    if i > 0 {
      SnapshotLifetime(h, i - 1);
      assert upTo[i - 1] == h[i - 1];
      assert Accepts(h[i - 1], h[i]);
    }
    if i + 1 < |h| {
      assert Accepts(h[i], h[i + 1]);
    }
  }
}
