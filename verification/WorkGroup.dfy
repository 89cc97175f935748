// A durable group of work units: replay, submission within a moving target,
// collection of finished workers, and recovery epochs. Worker threads settle at any
// moment, and the process may die between any two durable writes.
module WorkGroup {
  import opened Common

  // Ids and digests are compared, never looked into.
  type Id = int

  // A unit's id and the digest of its semantic input.
  datatype Unit = Unit(id: Id, key: int)

  datatype Doc = Doc(key: int, succeeded: bool, value: int)

  datatype Pause = Pause(reason: int)

  // How a worker ends: stopped, paused (local if the caller lets the group go on),
  // with a stored result, or with an exception before or after storing one.
  datatype Outcome = Stopped | PausedBy(pause: Pause, local: bool) | Recorded(doc: Doc) | Raised(stored: Option<Doc>)

  // One recovery epoch's directory: the unit set it is bound to, and its documents.
  datatype Epoch = Epoch(units: Option<seq<Unit>>, docs: map<Id, Doc>)

  datatype Phase = Polling | Submitting | Joining

  datatype Live = Live(units: seq<Unit>, failFast: bool, capacity: nat, target: nat, phase: Phase,
                       pending: seq<Unit>, inFlight: map<Id, Unit>, settled: map<Id, Outcome>,
                       results: map<Id, Doc>, pauses: map<Id, Outcome>, stopSubmitting: bool)

  datatype GroupOutcome = PausedWith(pause: Pause) | Results(docs: seq<(Id, Doc)>)

  // earlier lists the epochs before the current one, oldest first.
  datatype State = State(earlier: seq<map<Id, Doc>>, epoch: Epoch, live: Option<Live>)

  datatype Event =
    | Begin(units: seq<Unit>, failFast: bool, capacity: nat)
    | DieWhileLoading(units: seq<Unit>, copied: nat)
    | Poll(target: int)
    | Submit
    | Settle(id: Id, outcome: Outcome)
    | Collect(id: Id)
    | Abort
    | Return
    | Crash
    | Recover

  // ----- Loading -------------------------------------------------------------------------

  predicate DistinctIds(units: seq<Unit>) {
    forall i, j :: 0 <= i < j < |units| ==> units[i].id != units[j].id
  }

  // The newest of the first n earlier epochs that holds the id.
  function Newest(earlier: seq<map<Id, Doc>>, id: Id, n: nat): Option<Doc>
    requires n <= |earlier|
  {
    if n == 0 then None
    else if id in earlier[n - 1] then Some(earlier[n - 1][id])
    else Newest(earlier, id, n - 1)
  }

  // The document copied for a unit that the current epoch does not hold.
  function Replayed(earlier: seq<map<Id, Doc>>, u: Unit): Option<Doc> {
    var newest := Newest(earlier, u.id, |earlier|);
    if newest.Some? && newest.value.key == u.key && newest.value.succeeded then newest else None
  }

  // The epoch's documents after the first n units were looked at.
  function Loaded(earlier: seq<map<Id, Doc>>, docs: map<Id, Doc>, units: seq<Unit>, n: nat): map<Id, Doc>
    requires n <= |units|
  {
    if n == 0 then docs else WithCopy(earlier, Loaded(earlier, docs, units, n - 1), units[n - 1])
  }

  function WithCopy(earlier: seq<map<Id, Doc>>, docs: map<Id, Doc>, u: Unit): map<Id, Doc> {
    var copy := Replayed(earlier, u);
    if u.id !in docs && copy.Some? then docs[u.id := copy.value] else docs
  }

  // The units among the first n that have no document.
  function Missing(units: seq<Unit>, docs: map<Id, Doc>, n: nat): seq<Unit>
    requires n <= |units|
  {
    if n == 0 then []
    else if units[n - 1].id in docs then Missing(units, docs, n - 1)
    else Missing(units, docs, n - 1) + [units[n - 1]]
  }

  lemma {:induction false} MissingIs(units: seq<Unit>, docs: map<Id, Doc>, n: nat)
    requires n <= |units|
    ensures forall u :: u in Missing(units, docs, n) <==> u in units[..n] && u.id !in docs
  {
    if n > 0 {
      MissingIs(units, docs, n - 1);
      assert units[..n] == units[..n - 1] + [units[n - 1]];
    }
  }

  // The documents of the first n units.
  function Found(units: seq<Unit>, docs: map<Id, Doc>, n: nat): (found: map<Id, Doc>)
    requires n <= |units|
    ensures forall id :: id in found ==> id in docs && found[id] == docs[id]
    ensures forall i :: 0 <= i < n && units[i].id in docs ==> units[i].id in found
  {
    if n == 0 then map[]
    else if units[n - 1].id in docs then Found(units, docs, n - 1)[units[n - 1].id := docs[units[n - 1].id]]
    else Found(units, docs, n - 1)
  }

  predicate AnyFailed(results: map<Id, Doc>) {
    exists id :: id in results && !results[id].succeeded
  }

  predicate KeysMatch(units: seq<Unit>, docs: map<Id, Doc>) {
    forall u :: u in units && u.id in docs ==> docs[u.id].key == u.key
  }

  predicate Mismatches(u: Unit, docs: map<Id, Doc>) {
    u.id in docs && docs[u.id].key != u.key
  }

  // The loading loop: copies what may be replayed, then takes each unit's document as
  // its result or queues the unit. It stops at a document of another input.
  method LoadUnits(earlier: seq<map<Id, Doc>>, docs: map<Id, Doc>, units: seq<Unit>)
    returns (stored: map<Id, Doc>, results: map<Id, Doc>, pending: seq<Unit>, ok: bool)
    requires DistinctIds(units)
    ensures ok <==> KeysMatch(units, Loaded(earlier, docs, units, |units|))
    ensures ok ==> stored == Loaded(earlier, docs, units, |units|)
    ensures !ok ==> exists n :: 0 < n <= |units| && stored == Loaded(earlier, docs, units, n) && Mismatches(units[n - 1], stored)
    ensures ok ==> results == Found(units, stored, |units|) && pending == Missing(units, stored, |units|)
  {
    stored, results, pending := docs, map[], [];
    hide Missing, Found, KeysMatch;
    NothingLoaded(units, docs);
    for n := 0 to |units|
      invariant stored == Loaded(earlier, docs, units, n) && KeysMatch(units[..n], stored)
      invariant pending == Missing(units, stored, n) && results == Found(units, stored, n)
    {
      var u := units[n];
      LoadStep(earlier, stored, units, n);
      stored := WithCopy(earlier, stored, u);
      if u.id in stored {
        if stored[u.id].key != u.key {
          MismatchStays(earlier, docs, units, n);
          assert Mismatches(units[n + 1 - 1], stored);
          return stored, results, pending, false;
        }
        results := results[u.id := stored[u.id]];
      } else {
        pending := pending + [u];
      }
    }
    assert units[..|units|] == units;
    return stored, results, pending, true;
  }

  lemma {:induction false} NothingLoaded(units: seq<Unit>, docs: map<Id, Doc>)
    ensures KeysMatch(units[..0], docs) && Missing(units, docs, 0) == [] && Found(units, docs, 0) == map[]
  {
  }

  // Looking at unit n leaves what was said of the units before it.
  lemma {:induction false} LoadStep(earlier: seq<map<Id, Doc>>, docs: map<Id, Doc>, units: seq<Unit>, n: nat)
    requires n < |units| && DistinctIds(units) && KeysMatch(units[..n], docs)
    ensures var after, u := WithCopy(earlier, docs, units[n]), units[n];
      && Missing(units, after, n + 1) == Missing(units, docs, n) + (if u.id in after then [] else [u])
      && Found(units, after, n + 1) == (if u.id in after then Found(units, docs, n)[u.id := after[u.id]] else Found(units, docs, n))
      && (KeysMatch(units[..n + 1], after) <==> (u.id in after ==> after[u.id].key == u.key))
  {
    var after := WithCopy(earlier, docs, units[n]);
    forall i | 0 <= i < n ensures units[i].id != units[n].id && units[i] in units[..n] {
      assert units[..n][i] == units[i];
    }
    AnotherUnitsDocument(units, docs, after, n);
    assert units[..n + 1] == units[..n] + [units[n]];
  }

  lemma {:induction false} MismatchStays(earlier: seq<map<Id, Doc>>, docs: map<Id, Doc>, units: seq<Unit>, n: nat)
    requires n < |units| && units[n].id in Loaded(earlier, docs, units, n + 1)
    requires Loaded(earlier, docs, units, n + 1)[units[n].id].key != units[n].key
    ensures !KeysMatch(units, Loaded(earlier, docs, units, |units|))
  {
    LoadedStays(earlier, docs, units, n + 1, |units|);
    assert units[n] in units;
  }

  // Documents of later units do not matter to the first n.
  lemma {:induction false} AnotherUnitsDocument(units: seq<Unit>, a: map<Id, Doc>, b: map<Id, Doc>, n: nat)
    requires n <= |units|
    requires forall i :: 0 <= i < n ==> (units[i].id in a <==> units[i].id in b)
    requires forall i :: 0 <= i < n && units[i].id in a ==> a[units[i].id] == b[units[i].id]
    ensures Missing(units, a, n) == Missing(units, b, n) && Found(units, a, n) == Found(units, b, n)
  {
    if n > 0 {
      AnotherUnitsDocument(units, a, b, n - 1);
    }
  }

  lemma {:induction false} LoadedStays(earlier: seq<map<Id, Doc>>, docs: map<Id, Doc>, units: seq<Unit>, n: nat, m: nat)
    requires n <= m <= |units|
    ensures var a, b := Loaded(earlier, docs, units, n), Loaded(earlier, docs, units, m);
      forall id :: id in a ==> id in b && b[id] == a[id]
    decreases m
  {
    if n < m {
      LoadedStays(earlier, docs, units, n, m - 1);
    }
  }

  // ----- Steps ---------------------------------------------------------------------------

  // The submission loop has nothing more to submit under the current target.
  predicate SubmissionDone(l: Live) {
    l.pending == [] || |l.inFlight| >= l.target || l.stopSubmitting
  }

  // A stored document carries its own unit's key.
  function Bound(u: Unit, outcome: Outcome): Outcome {
    match outcome
    case Recorded(doc) => Recorded(doc.(key := u.key))
    case Raised(stored) => if stored.Some? then Raised(Some(stored.value.(key := u.key))) else outcome
    case _ => outcome
  }

  function StoredBy(outcome: Outcome): Option<Doc> {
    match outcome
    case Recorded(doc) => Some(doc)
    case Raised(stored) => stored
    case _ => None
  }

  // Taking a settled worker's outcome into account.
  function Collected(l: Live, id: Id): Live
    requires id in l.settled
  {
    var o := l.settled[id];
    l.(inFlight := l.inFlight - {id}, settled := l.settled - {id},
       phase := if o.PausedBy? || o.Recorded? then Polling else Joining,
       pauses := if o.PausedBy? then l.pauses[id := o] else l.pauses,
       results := if o.Recorded? then l.results[id := o.doc] else l.results,
       stopSubmitting := l.stopSubmitting || (o.PausedBy? && !o.local) || (o.Recorded? && l.failFast && !o.doc.succeeded))
  }

  function Started(s: State, units: seq<Unit>, failFast: bool, capacity: nat): State {
    var docs := Loaded(s.earlier, s.epoch.docs, units, |units|);
    var results := Found(units, docs, |units|);
    var live := Live(units, failFast, capacity, 0, Polling, Missing(units, docs, |units|), map[], map[],
                     results, map[], failFast && AnyFailed(results));
    s.(epoch := Epoch(Some(units), docs), live := if KeysMatch(units, docs) then Some(live) else None)
  }

  // A run may start over these units: none is running, ids are distinct, and the
  // epoch is not bound to others.
  predicate Admits(s: State, units: seq<Unit>) {
    s.live.None? && DistinctIds(units) && (s.epoch.units.Some? ==> s.epoch.units.value == units)
  }

  function LiveStep(s: State, l: Live, e: Event): State {
    match e
    case Poll(target) =>
      if l.phase.Joining? || (l.phase.Submitting? && !SubmissionDone(l)) || (l.pending == [] && l.inFlight == map[]) then s
      else if 1 <= target <= l.capacity then s.(live := Some(l.(target := target, phase := Submitting)))
      else s.(live := Some(l.(phase := Joining)))
    case Submit =>
      if !l.phase.Submitting? || SubmissionDone(l) then s
      else s.(live := Some(Submitted(l)))
    case Settle(id, outcome) =>
      if id !in l.inFlight || id in l.settled then s
      else
        var bound := Bound(l.inFlight[id], outcome);
        var stored := StoredBy(bound);
        var docs := if stored.Some? then s.epoch.docs[id := stored.value] else s.epoch.docs;
        s.(epoch := s.epoch.(docs := docs), live := Some(l.(settled := l.settled[id := bound])))
    case Collect(id) =>
      if l.phase.Joining? || (l.phase.Submitting? && !SubmissionDone(l)) || id !in l.settled then s
      else s.(live := Some(Collected(l, id)))
    case Abort => s.(live := Some(l.(phase := Joining)))
    case Return => if Finished(l) || Joined(l) then s.(live := None) else s
    case Crash => s.(live := None)
    case _ => s
  }

  // The main loop is over.
  predicate Finished(l: Live) {
    !l.phase.Joining? && l.inFlight == map[] && (l.pending == [] || (l.phase.Submitting? && SubmissionDone(l)))
  }

  // An exception is leaving and every submitted worker has settled.
  predicate Joined(l: Live) {
    l.phase.Joining? && forall id :: id in l.inFlight ==> id in l.settled
  }

  function Step(s: State, e: Event): State {
    if s.live.Some? then LiveStep(s, s.live.value, e)
    else
      match e
      case Begin(units, failFast, capacity) =>
        if Admits(s, units) && capacity >= 1 then Started(s, units, failFast, capacity) else s
      case DieWhileLoading(units, copied) =>
        if Admits(s, units) && copied <= |units|
        then s.(epoch := Epoch(Some(units), Loaded(s.earlier, s.epoch.docs, units, copied))) else s
      case Recover => State(s.earlier + [s.epoch.docs], Epoch(None, map[]), None)
      case _ => s
  }

  function Run(s: State, events: seq<Event>): State
    decreases |events|
  {
    if events == [] then s else Step(Run(s, events[..|events| - 1]), events[|events| - 1])
  }

  const EMPTY := State([], Epoch(None, map[]), None)

  // ----- The invariant ----------------------------------------------------------------------

  ghost predicate Belongs(units: seq<Unit>, id: Id) {
    exists i :: 0 <= i < |units| && units[i].id == id
  }

  ghost predicate EpochFits(e: Epoch) {
    if e.units.None? then e.docs == map[]
    else DistinctIds(e.units.value) && KeysMatch(e.units.value, e.docs) && AllBelong(e.units.value, e.docs)
  }

  ghost predicate AllBelong(units: seq<Unit>, docs: map<Id, Doc>) {
    forall id :: id in docs ==> Belongs(units, id)
  }

  // Everything earlier epochs can hand over has been copied.
  ghost predicate NothingToReplay(earlier: seq<map<Id, Doc>>, units: seq<Unit>, docs: map<Id, Doc>) {
    forall u :: u in units && u.id !in docs ==> Replayed(earlier, u) == None
  }

  // Each place a unit can be, with what the documents say of it there.
  ghost predicate PlacesFit(l: Live, docs: map<Id, Doc>) {
    PendingFits(l, docs) && InFlightFits(l, docs) && SettledFits(l, docs) && ResultsFit(l, docs) && PausesFit(l, docs)
  }

  ghost predicate PendingFits(l: Live, docs: map<Id, Doc>) {
    && DistinctIds(l.pending)
    && forall u :: u in l.pending ==> u in l.units && u.id !in docs && u.id !in l.inFlight && u.id !in l.pauses
  }

  ghost predicate InFlightFits(l: Live, docs: map<Id, Doc>) {
    forall id :: id in l.inFlight ==>
      && l.inFlight[id] in l.units && l.inFlight[id].id == id && id !in l.results && id !in l.pauses
      && (id !in l.settled ==> id !in docs)
  }

  ghost predicate SettledFits(l: Live, docs: map<Id, Doc>) {
    forall id :: id in l.settled ==>
      && id in l.inFlight
      && if StoredBy(l.settled[id]).Some? then id in docs && docs[id] == StoredBy(l.settled[id]).value else id !in docs
  }

  ghost predicate ResultsFit(l: Live, docs: map<Id, Doc>) {
    forall id :: id in l.results ==> id in docs && l.results[id] == docs[id]
  }

  ghost predicate PausesFit(l: Live, docs: map<Id, Doc>) {
    forall id :: id in l.pauses ==> l.pauses[id].PausedBy? && id !in docs && Belongs(l.units, id)
  }

  // Every unit is pending, in flight, finished or paused.
  predicate Accounted(l: Live, u: Unit) {
    u in l.pending || u.id in l.inFlight || u.id in l.results || u.id in l.pauses
  }

  ghost predicate LiveFits(l: Live, docs: map<Id, Doc>) {
    && PlacesFit(l, docs)
    && (l.phase.Joining? || AllAccounted(l))
    && 1 <= l.capacity && (l.phase.Submitting? ==> 1 <= l.target) && l.target <= l.capacity && |l.inFlight| <= l.capacity
    && StopHasReason(l)
  }

  ghost predicate AllAccounted(l: Live) {
    forall u :: u in l.units ==> Accounted(l, u)
  }

  predicate StopHasReason(l: Live) {
    l.stopSubmitting <==> (l.failFast && AnyFailed(l.results)) || AnyOpenPause(l.pauses)
  }

  predicate AnyOpenPause(pauses: map<Id, Outcome>) {
    exists id :: id in pauses && pauses[id].PausedBy? && !pauses[id].local
  }

  ghost predicate Inv(s: State) {
    && EpochFits(s.epoch)
    && (s.live.Some? ==> RunningFits(s, s.live.value))
  }

  ghost predicate RunningFits(s: State, l: Live) {
    && s.epoch.units == Some(l.units)
    && LiveFits(l, s.epoch.docs)
    && NothingToReplay(s.earlier, l.units, s.epoch.docs)
  }

  // ----- Every step keeps it ------------------------------------------------------------------

  lemma {:induction false} LoadingFits(earlier: seq<map<Id, Doc>>, docs: map<Id, Doc>, units: seq<Unit>, n: nat)
    requires n <= |units| && DistinctIds(units) && KeysMatch(units, docs)
    ensures KeysMatch(units, Loaded(earlier, docs, units, n))
    ensures forall id :: id in docs ==> id in Loaded(earlier, docs, units, n) && Loaded(earlier, docs, units, n)[id] == docs[id]
    ensures forall id :: id in Loaded(earlier, docs, units, n) && id !in docs ==>
      exists i :: 0 <= i < n && units[i].id == id && Replayed(earlier, units[i]) == Some(Loaded(earlier, docs, units, n)[id])
  {
    if n > 0 {
      LoadingFits(earlier, docs, units, n - 1);
      var before, u := Loaded(earlier, docs, units, n - 1), units[n - 1];
      var after := WithCopy(earlier, before, u);
      forall v | v in units && v.id in after ensures after[v.id].key == v.key {
        if v.id == u.id {
          var i :| 0 <= i < |units| && units[i] == v;
          assert i == n - 1;
        }
      }
    }
  }

  lemma {:induction false} MissingIsDistinct(units: seq<Unit>, docs: map<Id, Doc>, n: nat)
    requires n <= |units| && DistinctIds(units)
    ensures DistinctIds(Missing(units, docs, n))
  {
    MissingUnfold(units, docs, n);
    hide Missing, DistinctIds;
    if n > 0 {
      MissingIsDistinct(units, docs, n - 1);
      MissingComeBefore(units, docs, n - 1);
      OneMoreId(Missing(units, docs, n - 1), units[n - 1]);
    } else {
      NoIds();
    }
  }

  lemma {:induction false} NoIds()
    ensures DistinctIds([])
  {
  }

  lemma {:induction false} MissingUnfold(units: seq<Unit>, docs: map<Id, Doc>, n: nat)
    requires n <= |units|
    ensures n == 0 ==> Missing(units, docs, n) == []
    ensures n > 0 ==> Missing(units, docs, n) == Missing(units, docs, n - 1)
                      || Missing(units, docs, n) == Missing(units, docs, n - 1) + [units[n - 1]]
  {
  }

  lemma {:induction false} MissingComeBefore(units: seq<Unit>, docs: map<Id, Doc>, n: nat)
    requires n < |units| && DistinctIds(units)
    ensures forall u :: u in Missing(units, docs, n) ==> u.id != units[n].id
  {
    hide DistinctIds;
    forall u | u in Missing(units, docs, n) ensures u.id != units[n].id {
      MissingComesBefore(units, docs, n, u);
    }
  }

  lemma {:induction false} MissingComesBefore(units: seq<Unit>, docs: map<Id, Doc>, n: nat, u: Unit)
    requires n < |units| && DistinctIds(units) && u in Missing(units, docs, n)
    ensures u.id != units[n].id
  {
    MissingIs(units, docs, n);
    hide Missing;
    var k :| 0 <= k < n && units[..n][k] == u;
    assert units[k].id != units[n].id;
  }

  lemma {:induction false} OneMoreId(units: seq<Unit>, last: Unit)
    requires DistinctIds(units) && forall u :: u in units ==> u.id != last.id
    ensures DistinctIds(units + [last])
  {
    var more := units + [last];
    forall i, j | 0 <= i < j < |more| ensures more[i].id != more[j].id {
      assert more[i] == units[i] && units[i] in units;
    }
  }

  lemma {:induction false} StartFits(s: State, units: seq<Unit>, failFast: bool, capacity: nat)
    requires Inv(s) && Admits(s, units) && capacity >= 1
    ensures Inv(Started(s, units, failFast, capacity)) && Started(s, units, failFast, capacity).live.Some?
  {
    var docs := Loaded(s.earlier, s.epoch.docs, units, |units|);
    LoadingFits(s.earlier, s.epoch.docs, units, |units|);
    FreshLiveFits(units, docs, failFast, capacity);
    forall u | u in units && u.id !in docs ensures Replayed(s.earlier, u) == None {
      var i :| 0 <= i < |units| && units[i] == u;
      if Replayed(s.earlier, u).Some? {
        LoadedCovers(s.earlier, s.epoch.docs, units, |units|, i);
      }
    }
  }

  lemma {:induction false} LoadedCovers(earlier: seq<map<Id, Doc>>, docs: map<Id, Doc>, units: seq<Unit>, n: nat, i: nat)
    requires i < n <= |units| && Replayed(earlier, units[i]).Some?
    ensures units[i].id in Loaded(earlier, docs, units, n)
  {
    LoadedStays(earlier, docs, units, i + 1, n);
  }

  lemma {:induction false} FreshLiveFits(units: seq<Unit>, docs: map<Id, Doc>, failFast: bool, capacity: nat)
    requires DistinctIds(units) && capacity >= 1
    ensures var results := Found(units, docs, |units|);
      LiveFits(Live(units, failFast, capacity, 0, Polling, Missing(units, docs, |units|), map[], map[],
                    results, map[], failFast && AnyFailed(results)), docs)
  {
    var results := Found(units, docs, |units|);
    var l := Live(units, failFast, capacity, 0, Polling, Missing(units, docs, |units|), map[], map[],
                  results, map[], failFast && AnyFailed(results));
    MissingIsDistinct(units, docs, |units|);
    MissingIs(units, docs, |units|);
    hide AnyFailed, Missing, Found;
    assert units[..|units|] == units;
    assert PlacesFit(l, docs);
    forall u | u in units ensures Accounted(l, u) {
      if u.id in docs {
        var i :| 0 <= i < |units| && units[i] == u;
      }
    }
  }

  function Submitted(l: Live): Live
    requires l.pending != []
  {
    l.(pending := l.pending[1..], inFlight := l.inFlight[l.pending[0].id := l.pending[0]])
  }

  lemma {:induction false} SubmitKeepsPlaces(l: Live, docs: map<Id, Doc>)
    requires PlacesFit(l, docs) && l.pending != []
    ensures PlacesFit(Submitted(l), docs)
  {
    var u, t := l.pending[0], Submitted(l);
    assert u in l.pending;
    assert u.id !in l.settled;
    forall v | v in t.pending ensures v in l.pending && v.id != u.id {
      var k :| 0 <= k < |t.pending| && t.pending[k] == v;
      assert l.pending[k + 1] == v;
    }
  }

  lemma {:induction false} SubmitKeepsAccount(l: Live)
    requires AllAccounted(l) && l.pending != []
    ensures AllAccounted(Submitted(l))
  {
    assert l.pending == [l.pending[0]] + l.pending[1..];
    forall u | u in l.units ensures Accounted(Submitted(l), u) {
      assert Accounted(l, u);
    }
  }

  lemma {:induction false} SubmitFits(l: Live, docs: map<Id, Doc>)
    requires LiveFits(l, docs) && l.phase.Submitting? && !SubmissionDone(l)
    ensures LiveFits(Submitted(l), docs)
  {
    hide PlacesFit, AllAccounted, StopHasReason;
    SubmitKeepsPlaces(l, docs);
    SubmitKeepsAccount(l);
    OneMoreInFlight(l.inFlight, l.pending[0]);
    ReasonDependsOn(l, Submitted(l));
  }

  lemma {:induction false} OneMoreInFlight(inFlight: map<Id, Unit>, u: Unit)
    ensures |inFlight[u.id := u]| <= |inFlight| + 1
  {
    assert inFlight[u.id := u].Keys == inFlight.Keys + {u.id};
  }

  lemma {:induction false} ReasonDependsOn(l: Live, t: Live)
    requires StopHasReason(l) && t.stopSubmitting == l.stopSubmitting && t.failFast == l.failFast
    requires t.results == l.results && t.pauses == l.pauses
    ensures StopHasReason(t)
  {
  }

  lemma {:induction false} SettleFits(l: Live, docs: map<Id, Doc>, id: Id, outcome: Outcome)
    requires LiveFits(l, docs) && id in l.inFlight && id !in l.settled && KeysMatch(l.units, docs) && DistinctIds(l.units)
    ensures var bound := Bound(l.inFlight[id], outcome); var stored := StoredBy(bound);
      var after := if stored.Some? then docs[id := stored.value] else docs;
      LiveFits(l.(settled := l.settled[id := bound]), after) && KeysMatch(l.units, after) && Belongs(l.units, id)
  {
    var bound := Bound(l.inFlight[id], outcome);
    var stored := StoredBy(bound);
    var after := if stored.Some? then docs[id := stored.value] else docs;
    forall v | v in l.units && v.id in after ensures after[v.id].key == v.key {
      if v.id == id {
        var i :| 0 <= i < |l.units| && l.units[i] == v;
        var j :| 0 <= j < |l.units| && l.units[j] == l.inFlight[id];
        assert i == j;
      }
    }
  }

  lemma {:induction false} CollectKeepsPlaces(l: Live, docs: map<Id, Doc>, id: Id)
    requires PlacesFit(l, docs) && id in l.settled
    ensures PlacesFit(Collected(l, id), docs)
  {
    CollectKeepsPending(l, docs, id);
    CollectKeepsInFlight(l, docs, id);
    CollectKeepsSettled(l, docs, id);
    CollectKeepsResults(l, docs, id);
    CollectKeepsPauses(l, docs, id);
    hide Collected, PendingFits, InFlightFits, SettledFits, ResultsFit, PausesFit;
  }

  lemma {:induction false} CollectKeepsPending(l: Live, docs: map<Id, Doc>, id: Id)
    requires PendingFits(l, docs) && SettledFits(l, docs) && id in l.settled
    ensures PendingFits(Collected(l, id), docs)
  {
    var t := Collected(l, id);
    assert t.pending == l.pending && t.units == l.units && t.inFlight == l.inFlight - {id};
    assert forall other :: other in t.pauses ==> other in l.pauses || other == id;
    hide Collected, SettledFits, DistinctIds;
    assert id in l.inFlight;
  }

  lemma {:induction false} CollectKeepsInFlight(l: Live, docs: map<Id, Doc>, id: Id)
    requires InFlightFits(l, docs) && id in l.settled
    ensures InFlightFits(Collected(l, id), docs)
  {
    var t := Collected(l, id);
    assert t.units == l.units && t.inFlight == l.inFlight - {id} && t.settled == l.settled - {id};
    assert forall other :: other in t.pauses ==> other in l.pauses || other == id;
    assert forall other :: other in t.results ==> other in l.results || other == id;
    hide Collected;
  }

  lemma {:induction false} CollectKeepsSettled(l: Live, docs: map<Id, Doc>, id: Id)
    requires SettledFits(l, docs) && id in l.settled
    ensures SettledFits(Collected(l, id), docs)
  {
    var t := Collected(l, id);
    assert t.inFlight == l.inFlight - {id} && t.settled == l.settled - {id};
    hide Collected;
  }

  lemma {:induction false} CollectKeepsResults(l: Live, docs: map<Id, Doc>, id: Id)
    requires SettledFits(l, docs) && ResultsFit(l, docs) && id in l.settled
    ensures ResultsFit(Collected(l, id), docs)
  {
  }

  lemma {:induction false} CollectKeepsPauses(l: Live, docs: map<Id, Doc>, id: Id)
    requires InFlightFits(l, docs) && SettledFits(l, docs) && PausesFit(l, docs) && id in l.settled
    ensures PausesFit(Collected(l, id), docs)
  {
    assert id in l.inFlight && l.inFlight[id] in l.units && l.inFlight[id].id == id;
    ListedBelongs(l.units, l.inFlight[id]);
    hide InFlightFits, Belongs;
  }

  lemma {:induction false} CollectKeepsAccount(l: Live, id: Id)
    requires AllAccounted(l) && id in l.settled
    ensures Collected(l, id).phase.Joining? || AllAccounted(Collected(l, id))
  {
    forall u | u in l.units && !Collected(l, id).phase.Joining? ensures Accounted(Collected(l, id), u) {
      assert Accounted(l, u);
    }
  }

  lemma {:induction false} CollectKeepsReason(l: Live, docs: map<Id, Doc>, id: Id)
    requires PlacesFit(l, docs) && id in l.settled && StopHasReason(l)
    ensures StopHasReason(Collected(l, id))
  {
    var t := Collected(l, id);
    assert id !in l.results && id !in l.pauses;
    hide PlacesFit;
    if l.settled[id].Recorded? {
      FailureAppears(l.results, id, l.settled[id].doc);
    } else if l.settled[id].PausedBy? {
      PauseAppears(l.pauses, id, l.settled[id]);
    }
    hide AnyFailed, AnyOpenPause;
  }

  lemma {:induction false} FailureAppears(results: map<Id, Doc>, id: Id, doc: Doc)
    requires id !in results
    ensures AnyFailed(results[id := doc]) <==> AnyFailed(results) || !doc.succeeded
  {
    var after := results[id := doc];
    if !doc.succeeded {
      assert id in after && !after[id].succeeded;
    }
    if AnyFailed(results) {
      var other :| other in results && !results[other].succeeded;
      assert other in after && !after[other].succeeded;
    }
  }

  lemma {:induction false} PauseAppears(pauses: map<Id, Outcome>, id: Id, pause: Outcome)
    requires id !in pauses && pause.PausedBy?
    ensures AnyOpenPause(pauses[id := pause]) <==> AnyOpenPause(pauses) || !pause.local
  {
    var after := pauses[id := pause];
    if !pause.local {
      assert id in after && after[id].PausedBy? && !after[id].local;
    }
    if AnyOpenPause(pauses) {
      var other :| other in pauses && pauses[other].PausedBy? && !pauses[other].local;
      assert other in after && after[other].PausedBy? && !after[other].local;
    }
  }

  lemma {:induction false} CollectFits(l: Live, docs: map<Id, Doc>, id: Id)
    requires LiveFits(l, docs) && id in l.settled && !l.phase.Joining?
    ensures LiveFits(Collected(l, id), docs)
  {
    hide PlacesFit, AllAccounted, StopHasReason, Collected;
    CollectFrees(l, id);
    CollectKeepsPlaces(l, docs, id);
    CollectKeepsAccount(l, id);
    CollectKeepsReason(l, docs, id);
    FewerInFlight(l.inFlight, id);
  }

  lemma {:induction false} CollectFrees(l: Live, id: Id)
    requires id in l.settled
    ensures var t := Collected(l, id);
      && t.units == l.units && t.pending == l.pending && t.inFlight == l.inFlight - {id}
      && t.target == l.target && t.capacity == l.capacity && !t.phase.Submitting?
  {
  }

  lemma {:induction false} FewerInFlight(inFlight: map<Id, Unit>, id: Id)
    ensures |inFlight - {id}| <= |inFlight|
  {
    assert (inFlight - {id}).Keys == inFlight.Keys - {id};
  }

  // Polling and aborting move no unit.
  lemma {:induction false} PhaseFits(l: Live, t: Live, docs: map<Id, Doc>)
    requires LiveFits(l, docs) && t == l.(phase := t.phase, target := t.target)
    requires t.target <= t.capacity && (t.phase.Submitting? ==> 1 <= t.target)
    requires l.phase.Joining? ==> t.phase.Joining?
    ensures LiveFits(t, docs)
  {
    assert AllAccounted(l) ==> AllAccounted(t) by {
      if AllAccounted(l) {
        forall u | u in t.units ensures Accounted(t, u) {
          assert Accounted(l, u);
        }
      }
    }
  }

  lemma {:induction false} StepKeepsInv(s: State, e: Event)
    requires Inv(s)
    ensures Inv(Step(s, e))
  {
    if s.live.Some? {
      LiveStepKeepsInv(s, s.live.value, e);
    } else {
      match e
      case Begin(units, failFast, capacity) =>
        if Admits(s, units) && capacity >= 1 {
          StartFits(s, units, failFast, capacity);
        }
      case DieWhileLoading(units, copied) =>
        if Admits(s, units) && copied <= |units| {
          LoadingFits(s.earlier, s.epoch.docs, units, copied);
        }
      case _ =>
    }
  }

  lemma {:induction false} LiveStepKeepsInv(s: State, l: Live, e: Event)
    requires Inv(s) && s.live == Some(l)
    ensures Inv(LiveStep(s, l, e))
  {
    hide LiveFits;
    match e
    case Submit =>
      if l.phase.Submitting? && !SubmissionDone(l) {
        SubmitFits(l, s.epoch.docs);
      }
    case Settle(_, _) => SettleKeepsInv(s, l, e);
    case Collect(id) =>
      if !l.phase.Joining? && id in l.settled {
        CollectFits(l, s.epoch.docs, id);
      }
    case Poll(_) => PollKeepsInv(s, l, e);
    case Abort => PollKeepsInv(s, l, e);
    case _ =>
  }

  lemma {:induction false} SettleKeepsInv(s: State, l: Live, e: Event)
    requires Inv(s) && s.live == Some(l) && e.Settle?
    ensures Inv(LiveStep(s, l, e))
  {
    hide LiveFits, Bound;
    if e.id in l.inFlight && e.id !in l.settled {
      SettleFits(l, s.epoch.docs, e.id, e.outcome);
    }
  }

  lemma {:induction false} PollKeepsInv(s: State, l: Live, e: Event)
    requires Inv(s) && s.live == Some(l) && (e.Poll? || e.Abort?)
    ensures Inv(LiveStep(s, l, e))
  {
    hide LiveFits, EpochFits, NothingToReplay, SubmissionDone;
    TargetFits(l, s.epoch.docs);
    PhaseFits(l, LiveStep(s, l, e).live.value, s.epoch.docs);
  }

  lemma {:induction false} TargetFits(l: Live, docs: map<Id, Doc>)
    requires LiveFits(l, docs)
    ensures l.target <= l.capacity && (l.phase.Submitting? ==> 1 <= l.target)
  {
  }

  lemma {:induction false} RunKeepsInv(s: State, events: seq<Event>)
    requires Inv(s)
    ensures Inv(Run(s, events))
    decreases |events|
  {
    if events != [] {
      RunKeepsInv(s, events[..|events| - 1]);
      StepKeepsInv(Run(s, events[..|events| - 1]), events[|events| - 1]);
    }
  }

  // ----- Runs -----------------------------------------------------------------------------------

  function Count(b: bool): nat { if b then 1 else 0 }

  // Whatever happened, a unit is in exactly one place, except that an exception on its
  // way out may have taken the unit it came from off the books.
  lemma {:induction false} UnitsArePartitioned(events: seq<Event>, u: Unit)
    requires Run(EMPTY, events).live.Some? && u in Run(EMPTY, events).live.value.units
    ensures var l := Run(EMPTY, events).live.value;
      var places := Count(u in l.pending) + Count(u.id in l.inFlight) + Count(u.id in l.results) + Count(u.id in l.pauses);
      places <= 1 && (!l.phase.Joining? ==> places == 1)
  {
    RunKeepsInv(EMPTY, events);
    var s := Run(EMPTY, events);
    var l, docs := s.live.value, s.epoch.docs;
    if !l.phase.Joining? {
      assert Accounted(l, u);
    }
    if u.id in l.results {
      assert u.id in docs;
    }
  }

  // Nothing but listed units is ever queued, run, finished or paused.
  lemma {:induction false} OnlyListedUnits(events: seq<Event>, id: Id)
    requires Run(EMPTY, events).live.Some?
    requires var l := Run(EMPTY, events).live.value;
      id in l.inFlight || id in l.results || id in l.pauses || exists u :: u in l.pending && u.id == id
    ensures Belongs(Run(EMPTY, events).live.value.units, id)
  {
    RunKeepsInv(EMPTY, events);
    var l := Run(EMPTY, events).live.value;
    if id in l.inFlight {
      ListedBelongs(l.units, l.inFlight[id]);
    } else if id !in l.results && id !in l.pauses {
      var u :| u in l.pending && u.id == id;
      ListedBelongs(l.units, u);
    }
  }

  lemma {:induction false} ListedBelongs(units: seq<Unit>, u: Unit)
    requires u in units
    ensures Belongs(units, u.id)
  {
    var i :| 0 <= i < |units| && units[i] == u;
  }

  // The step submits this unit to a worker.
  predicate Submits(s: State, e: Event, u: Unit) {
    s.live.Some? && Step(s, e).live.Some? && u.id !in s.live.value.inFlight && u.id in Step(s, e).live.value.inFlight
  }

  // The main loop reads a target: it is at its top, and some work is left.
  predicate CanPoll(l: Live) {
    && !l.phase.Joining? && (l.phase.Submitting? ==> SubmissionDone(l))
    && (l.pending != [] || l.inFlight != map[])
  }

  // The target that the current run has read last.
  function LastRead(events: seq<Event>): Option<int> {
    if events == [] then None
    else
      var before, e := events[..|events| - 1], events[|events| - 1];
      var s := Run(EMPTY, before);
      if s.live.None? then None
      else if e.Poll? && CanPoll(s.live.value) then Some(e.target)
      else LastRead(before)
  }

  // While a run submits, the target it goes by is the one it has read last, and that one
  // is within its capacity.
  lemma {:induction false} TargetIsTheLastRead(events: seq<Event>)
    requires Run(EMPTY, events).live.Some? && Run(EMPTY, events).live.value.phase.Submitting?
    ensures var l := Run(EMPTY, events).live.value; LastRead(events) == Some(l.target) && 1 <= l.target <= l.capacity
    decreases |events|
  {
    var before, e := events[..|events| - 1], events[|events| - 1];
    var s := Run(EMPTY, before);
    hide Collected, Submitted, SubmissionDone, Bound;
    if s.live.Some? {
      if s.live.value.phase.Submitting? {
        TargetIsTheLastRead(before);
      }
      SubmittingSinceRead(s, s.live.value, e);
    }
  }

  // How a run comes to submit, or goes on submitting.
  lemma {:induction false} SubmittingSinceRead(s: State, l: Live, e: Event)
    requires s.live == Some(l) && Step(s, e).live.Some? && Step(s, e).live.value.phase.Submitting?
    ensures var t := Step(s, e).live.value;
      && t.capacity == l.capacity
      && if e.Poll? && CanPoll(l) then t.target == e.target && 1 <= e.target <= l.capacity
         else l.phase.Submitting? && t.target == l.target
  {
    hide SubmissionDone, Bound;
    if e.Collect? && e.id in l.settled {
      CollectFrees(l, e.id);
    }
    hide Collected;
  }

  // A submission stays within the target that the run has read last, which lies within
  // the capacity; it is of a unit without a document, and never after a failure or pause
  // that stops the group.
  lemma {:induction false} SubmissionsRespectTheTarget(events: seq<Event>, e: Event, u: Unit)
    requires Submits(Run(EMPTY, events), e, u)
    ensures var l, t := Run(EMPTY, events).live.value, Step(Run(EMPTY, events), e).live.value;
      && LastRead(events).Some? && 1 <= LastRead(events).value <= l.capacity
      && |t.inFlight| <= LastRead(events).value
      && !(l.failFast && AnyFailed(l.results)) && !AnyOpenPause(l.pauses)
      && u.id !in Run(EMPTY, events).epoch.docs
      && (forall v :: v in l.units && v.id == u.id ==> l.pending[..1] == [v] && t.pending == l.pending[1..])
  {
    RunKeepsInv(EMPTY, events);
    var s := Run(EMPTY, events);
    SubmitIsGuarded(s, s.live.value, e, u);
    TargetIsTheLastRead(events);
    assert StopHasReason(s.live.value);
    hide AnyFailed, AnyOpenPause, Step, Run;
  }

  // Reading a target outside the capacity ends the run: until another one begins nothing
  // is submitted, and once its workers have settled it is over.
  lemma {:induction false} BadTargetEndsTheRun(events: seq<Event>, target: int, later: seq<Event>, e: Event, u: Unit)
    requires var s := Run(EMPTY, events);
      s.live.Some? && CanPoll(s.live.value) && !(1 <= target <= s.live.value.capacity)
    requires forall x :: x in later ==> !x.Begin?
    ensures var t := Run(Step(Run(EMPTY, events), Poll(target)), later);
      && !Submits(t, e, u) && (t.live.Some? ==> t.live.value.phase.Joining?)
      && (t.live.Some? && (forall id :: id in t.live.value.inFlight ==> id in t.live.value.settled) ==> Step(t, Return).live.None?)
  {
    var bad := Step(Run(EMPTY, events), Poll(target));
    assert bad.live.value.phase.Joining?;
    hide Run;
    JoiningLasts(bad, later);
    hide Collected, Submitted, Bound;
  }

  lemma {:induction false} JoiningLasts(s: State, events: seq<Event>)
    requires (s.live.Some? ==> s.live.value.phase.Joining?) && forall x :: x in events ==> !x.Begin?
    ensures var t := Run(s, events); t.live.Some? ==> t.live.value.phase.Joining?
    decreases |events|
  {
    if events != [] {
      JoiningLasts(s, events[..|events| - 1]);
      assert events[|events| - 1] in events;
      hide Collected, Submitted, Bound;
    }
  }

  lemma {:induction false} SubmitIsGuarded(s: State, l: Live, e: Event, u: Unit)
    requires Inv(s) && s.live == Some(l) && Submits(s, e, u)
    ensures e.Submit? && l.phase.Submitting? && !SubmissionDone(l) && u.id == l.pending[0].id
    ensures Step(s, e).live == Some(Submitted(l)) && |Submitted(l).inFlight| <= l.target && 1 <= l.target <= l.capacity
    ensures u.id !in s.epoch.docs
    ensures forall v :: v in l.units && v.id == u.id ==> v == l.pending[0]
  {
    OnlySubmitSubmits(s, l, e, u);
    OneMoreInFlight(l.inFlight, l.pending[0]);
    assert LiveFits(l, s.epoch.docs) && DistinctIds(l.units);
    hide LiveFits, Step, LiveStep, EpochFits, NothingToReplay, DistinctIds;
    TargetFits(l, s.epoch.docs);
    PendingIsFresh(l, s.epoch.docs, l.pending[0]);
    forall v | v in l.units && v.id == u.id ensures v == l.pending[0] {
      SameIdSameUnit(l.units, v, l.pending[0]);
    }
  }

  lemma {:induction false} OnlySubmitSubmits(s: State, l: Live, e: Event, u: Unit)
    requires s.live == Some(l) && Submits(s, e, u)
    ensures e.Submit? && l.phase.Submitting? && !SubmissionDone(l) && u.id == l.pending[0].id
    ensures Step(s, e).live == Some(Submitted(l))
  {
    hide Collected, SubmissionDone, Bound;
    match e
    case Collect(id) =>
      if id in l.settled {
        CollectFrees(l, id);
      }
    case _ =>
  }

  lemma {:induction false} PendingIsFresh(l: Live, docs: map<Id, Doc>, u: Unit)
    requires LiveFits(l, docs) && u in l.pending
    ensures u in l.units && u.id !in docs
  {
  }

  lemma {:induction false} SameIdSameUnit(units: seq<Unit>, u: Unit, v: Unit)
    requires DistinctIds(units) && u in units && v in units && u.id == v.id
    ensures u == v
  {
    var i :| 0 <= i < |units| && units[i] == u;
    var j :| 0 <= j < |units| && units[j] == v;
    assert i == j;
  }

  // ----- Documents ------------------------------------------------------------------------------

  predicate Keeps(a: map<Id, Doc>, b: map<Id, Doc>) {
    forall id :: id in a ==> id in b && b[id] == a[id]
  }

  predicate SameEpoch(events: seq<Event>) {
    forall e :: e in events ==> !e.Recover?
  }

  lemma {:induction false} StepKeepsDocuments(s: State, e: Event)
    requires Inv(s) && !e.Recover?
    ensures Keeps(s.epoch.docs, Step(s, e).epoch.docs) && Step(s, e).earlier == s.earlier
    ensures s.epoch.units.Some? ==> Step(s, e).epoch.units == s.epoch.units
  {
    if s.live.Some? {
      var l := s.live.value;
      if e.Settle? && e.id in l.inFlight && e.id !in l.settled {
        assert InFlightFits(l, s.epoch.docs);
      }
    } else {
      match e
      case Begin(units, _, _) =>
        if Admits(s, units) {
          EmptyKeysMatch(s, units);
          LoadingFits(s.earlier, s.epoch.docs, units, |units|);
        }
      case DieWhileLoading(units, copied) =>
        if Admits(s, units) && copied <= |units| {
          EmptyKeysMatch(s, units);
          LoadingFits(s.earlier, s.epoch.docs, units, copied);
        }
      case _ =>
    }
  }

  lemma {:induction false} EmptyKeysMatch(s: State, units: seq<Unit>)
    requires Inv(s) && Admits(s, units)
    ensures KeysMatch(units, s.epoch.docs)
  {
  }

  // Within an epoch, across any number of restarts, a stored document never changes.
  lemma {:induction false} DocumentsNeverChange(before: seq<Event>, after: seq<Event>)
    requires SameEpoch(after)
    ensures Keeps(Run(EMPTY, before).epoch.docs, Run(Run(EMPTY, before), after).epoch.docs)
    decreases |after|
  {
    if after != [] {
      var rest, e := after[..|after| - 1], after[|after| - 1];
      DocumentsNeverChange(before, rest);
      RunKeepsInv(EMPTY, before);
      RunKeepsInv(Run(EMPTY, before), rest);
      StepKeepsDocuments(Run(Run(EMPTY, before), rest), e);
    }
  }

  // ... and its unit is never submitted again.
  lemma {:induction false} StoredUnitsAreNeverInvoked(before: seq<Event>, after: seq<Event>, e: Event, u: Unit)
    requires SameEpoch(after) && u.id in Run(EMPTY, before).epoch.docs
    ensures !Submits(Run(Run(EMPTY, before), after), e, u)
  {
    DocumentsNeverChange(before, after);
    RunKeepsInv(EMPTY, before);
    RunKeepsInv(Run(EMPTY, before), after);
    var s := Run(Run(EMPTY, before), after);
    if Submits(s, e, u) {
      SubmitIsGuarded(s, s.live.value, e, u);
    }
  }

  // A replayed document is the newest earlier one under the id, if that one is a success
  // for the same input.
  lemma {:induction false} NewestIsTheLastHolder(earlier: seq<map<Id, Doc>>, id: Id, n: nat, doc: Doc)
    requires n <= |earlier|
    ensures Newest(earlier, id, n) == Some(doc) <==>
      exists k :: 0 <= k < n && id in earlier[k] && earlier[k][id] == doc && NotHeld(earlier, id, k + 1, n)
  {
    if n > 0 {
      NewestIsTheLastHolder(earlier, id, n - 1, doc);
      if id in earlier[n - 1] {
        assert NotHeld(earlier, id, n, n);
      } else {
        forall k | 0 <= k < n - 1 && id in earlier[k] ensures NotHeld(earlier, id, k + 1, n) <==> NotHeld(earlier, id, k + 1, n - 1) {
        }
      }
    }
  }

  predicate NotHeld(earlier: seq<map<Id, Doc>>, id: Id, from: nat, to: nat)
    requires to <= |earlier|
  {
    forall j :: from <= j < to ==> id !in earlier[j]
  }

  // The document is that of the newest earlier epoch that holds the unit, and it is a success
  // for the unit's own input.
  ghost predicate Replayable(earlier: seq<map<Id, Doc>>, u: Unit, doc: Doc) {
    && (exists k :: 0 <= k < |earlier| && u.id in earlier[k] && earlier[k][u.id] == doc && NotHeld(earlier, u.id, k + 1, |earlier|))
    && doc.key == u.key && doc.succeeded
  }

  lemma {:induction false} ReplayedIff(earlier: seq<map<Id, Doc>>, u: Unit)
    ensures forall doc :: Replayed(earlier, u) == Some(doc) <==> Replayable(earlier, u, doc)
  {
    forall doc ensures Replayed(earlier, u) == Some(doc) <==> Replayable(earlier, u, doc) {
      NewestIsTheLastHolder(earlier, u.id, |earlier|, doc);
    }
  }

  // One unit stands before another in the list.
  ghost predicate Ahead(units: seq<Unit>, x: Unit, y: Unit) {
    exists i, j :: 0 <= i < j < |units| && units[i] == x && units[j] == y
  }

  // Units are queued in the order of the list.
  lemma {:induction false} MissingInOrder(units: seq<Unit>, docs: map<Id, Doc>, n: nat) returns (at: seq<nat>)
    requires n <= |units|
    ensures var missing := Missing(units, docs, n);
      && |at| == |missing| && (forall a :: 0 <= a < |at| ==> at[a] < n && units[at[a]] == missing[a])
      && (forall a, b :: 0 <= a < b < |at| ==> at[a] < at[b])
    ensures QueuedInOrder(units, Missing(units, docs, n))
  {
    at := [];
    if n > 0 {
      at := MissingInOrder(units, docs, n - 1);
      if units[n - 1].id !in docs {
        at := at + [n - 1];
      }
    }
  }

  // A new epoch takes over exactly those documents, and no others. The units without a
  // document are queued in the order of the list.
  lemma {:induction false} StartCopiesExactly(events: seq<Event>, units: seq<Unit>, failFast: bool, capacity: nat, u: Unit)
    requires Admits(Run(EMPTY, events), units) && capacity >= 1 && u in units
    ensures var s := Run(EMPTY, events); var t := Step(s, Begin(units, failFast, capacity));
      && (u.id in t.epoch.docs <==> u.id in s.epoch.docs || exists doc :: Replayable(s.earlier, u, doc))
      && (u.id in t.epoch.docs && u.id !in s.epoch.docs ==> Replayable(s.earlier, u, t.epoch.docs[u.id]))
      && (u.id in s.epoch.docs ==> t.epoch.docs[u.id] == s.epoch.docs[u.id])
      && t.live.Some? && (u in t.live.value.pending <==> u.id !in t.epoch.docs)
      && (u.id in t.live.value.results <==> u.id in t.epoch.docs)
      && (u.id in t.live.value.results ==> t.live.value.results[u.id] == t.epoch.docs[u.id])
      && t.live.value.units == units && t.live.value.failFast == failFast && t.live.value.capacity == capacity
      && t.live.value.inFlight == map[] && t.live.value.pauses == map[] && t.live.value.phase.Polling?
      && QueuedInOrder(units, t.live.value.pending)
  {
    var s := Run(EMPTY, events);
    RunKeepsInv(EMPTY, events);
    EmptyKeysMatch(s, units);
    StartFits(s, units, failFast, capacity);
    var docs := Loaded(s.earlier, s.epoch.docs, units, |units|);
    hide Run, Inv, Admits, Found, Missing, AnyFailed, Replayed;
    assert Step(s, Begin(units, failFast, capacity)) == Started(s, units, failFast, capacity);
    hide Loaded, KeysMatch, Replayable, QueuedInOrder;
    LoadedExactly(s.earlier, s.epoch.docs, units, u);
    LoadedStays(s.earlier, s.epoch.docs, units, 0, |units|);
    NoneLoaded(s.earlier, s.epoch.docs, units);
    ReplayedIff(s.earlier, u);
    MissingExactly(units, docs, u);
    FoundExactly(units, docs, u);
    var at := MissingInOrder(units, docs, |units|);
  }

  ghost predicate QueuedInOrder(units: seq<Unit>, queued: seq<Unit>) {
    forall a, b :: 0 <= a < b < |queued| ==> Ahead(units, queued[a], queued[b])
  }

  lemma {:induction false} NoneLoaded(earlier: seq<map<Id, Doc>>, docs: map<Id, Doc>, units: seq<Unit>)
    ensures Loaded(earlier, docs, units, 0) == docs
  {
  }

  lemma {:induction false} FoundExactly(units: seq<Unit>, docs: map<Id, Doc>, u: Unit)
    requires u in units
    ensures var found := Found(units, docs, |units|);
      (u.id in found <==> u.id in docs) && (u.id in found ==> found[u.id] == docs[u.id])
  {
    hide Found;
    var i :| 0 <= i < |units| && units[i] == u;
  }

  lemma {:induction false} LoadedExactly(earlier: seq<map<Id, Doc>>, docs: map<Id, Doc>, units: seq<Unit>, u: Unit)
    requires DistinctIds(units) && KeysMatch(units, docs) && u in units
    ensures var after := Loaded(earlier, docs, units, |units|);
      && (u.id in after <==> u.id in docs || Replayed(earlier, u).Some?)
      && (u.id in after && u.id !in docs ==> Replayed(earlier, u) == Some(after[u.id]))
  {
    LoadingFits(earlier, docs, units, |units|);
    var i :| 0 <= i < |units| && units[i] == u;
    hide Loaded, Replayed, KeysMatch;
    if Replayed(earlier, u).Some? {
      LoadedCovers(earlier, docs, units, |units|, i);
    }
  }

  lemma {:induction false} MissingExactly(units: seq<Unit>, docs: map<Id, Doc>, u: Unit)
    requires u in units
    ensures u in Missing(units, docs, |units|) <==> u.id !in docs
  {
    MissingIs(units, docs, |units|);
    assert units[..|units|] == units;
  }

  // ----- Success lasts over recoveries --------------------------------------------------------------

  // Every run in these events that lists the unit's id gives it the same input.
  predicate AsksTheSame(events: seq<Event>, u: Unit) {
    forall e, v :: e in events && v in Asked(e) && v.id == u.id ==> v == u
  }

  function Asked(e: Event): seq<Unit> {
    match e
    case Begin(units, _, _) => units
    case DieWhileLoading(units, _) => units
    case _ => []
  }

  // The newest document of the unit, over all epochs, is a success for its input.
  predicate Done(s: State, u: Unit) {
    Replayed(s.earlier + [s.epoch.docs], u).Some?
  }

  // A run that lists the unit has the document at hand.
  ghost predicate DoneForRun(s: State, u: Unit) {
    Done(s, u) && (s.live.Some? && Belongs(s.live.value.units, u.id) ==> u.id in s.epoch.docs)
  }

  lemma {:induction false} DoneMeans(s: State, u: Unit)
    ensures u.id in s.epoch.docs ==> (Done(s, u) <==> s.epoch.docs[u.id].succeeded && s.epoch.docs[u.id].key == u.key)
    ensures u.id !in s.epoch.docs ==> (Done(s, u) <==> Replayed(s.earlier, u).Some?)
  {
    NewestOfPrefix(s.earlier, [s.epoch.docs], u.id, |s.earlier|);
  }

  lemma {:induction false} NewestOfPrefix(a: seq<map<Id, Doc>>, b: seq<map<Id, Doc>>, id: Id, n: nat)
    requires n <= |a|
    ensures Newest(a + b, id, n) == Newest(a, id, n)
  {
    if n > 0 {
      NewestOfPrefix(a, b, id, n - 1);
    }
  }

  // While a run is on, a done unit is never in flight without its document.
  lemma {:induction false} SettleIsOfListedUndone(s: State, l: Live, id: Id)
    requires Inv(s) && s.live == Some(l) && id in l.inFlight && id !in l.settled
    ensures id !in s.epoch.docs && Belongs(l.units, id)
  {
    assert InFlightFits(l, s.epoch.docs);
    ListedBelongs(l.units, l.inFlight[id]);
  }

  lemma {:induction false} StepKeepsDone(s: State, e: Event, u: Unit)
    requires Inv(s) && DoneForRun(s, u) && AsksTheSame([e], u)
    ensures DoneForRun(Step(s, e), u)
  {
    var t := Step(s, e);
    assert e in [e];
    DoneMeans(s, u);
    DoneMeans(t, u);
    if s.live.Some? {
      var l := s.live.value;
      if e.Settle? && e.id in l.inFlight && e.id !in l.settled {
        SettleIsOfListedUndone(s, l, e.id);
        assert e.id != u.id;
      }
      StepKeepsUnits(s, l, e);
    } else if e.Recover? {
      NoDocumentsYet(t, u);
    } else if Asked(e) != [] && Admits(s, Asked(e)) {
      var n := if e.Begin? then |e.units| else e.copied;
      if n <= |e.units| {
        LoadingKeepsDone(s, Asked(e), n, u);
      }
    }
  }

  lemma {:induction false} StepKeepsUnits(s: State, l: Live, e: Event)
    requires s.live == Some(l)
    ensures var t := Step(s, e); t.earlier == s.earlier && (t.live.Some? ==> t.live.value.units == l.units)
    ensures Step(s, e).epoch.docs == s.epoch.docs || (e.Settle? && e.id in l.inFlight && e.id !in l.settled)
    ensures forall id :: id in s.epoch.docs ==> id in Step(s, e).epoch.docs
    ensures forall id :: id in s.epoch.docs && !(e.Settle? && e.id == id) ==> Step(s, e).epoch.docs[id] == s.epoch.docs[id]
    ensures forall id :: id in Step(s, e).epoch.docs && id !in s.epoch.docs ==> e.Settle? && e.id == id
  {
  }

  lemma {:induction false} NoDocumentsYet(t: State, u: Unit)
    requires t.epoch == Epoch(None, map[]) && t.live.None?
    ensures DoneForRun(t, u) <==> Replayed(t.earlier, u).Some?
  {
    DoneMeans(t, u);
  }

  lemma {:induction false} LoadingKeepsDone(s: State, units: seq<Unit>, n: nat, u: Unit)
    requires Inv(s) && Done(s, u) && Admits(s, units) && n <= |units|
    requires forall v :: v in units && v.id == u.id ==> v == u
    ensures var docs := Loaded(s.earlier, s.epoch.docs, units, n);
      && (u.id in s.epoch.docs ==> u.id in docs)
      && (u.id in docs ==> docs[u.id].succeeded && docs[u.id].key == u.key)
      && (n == |units| && Belongs(units, u.id) ==> u.id in docs)
  {
    EmptyKeysMatch(s, units);
    LoadingFits(s.earlier, s.epoch.docs, units, n);
    DoneMeans(s, u);
    if n == |units| && Belongs(units, u.id) && u.id !in s.epoch.docs {
      var i :| 0 <= i < |units| && units[i].id == u.id;
      LoadedCovers(s.earlier, s.epoch.docs, units, n, i);
    }
  }

  lemma {:induction false} DoneLasts(s: State, events: seq<Event>, u: Unit)
    requires Inv(s) && DoneForRun(s, u) && AsksTheSame(events, u)
    ensures DoneForRun(Run(s, events), u)
    decreases |events|
  {
    if events != [] {
      var rest, e := events[..|events| - 1], events[|events| - 1];
      DoneLasts(s, rest, u);
      RunKeepsInv(s, rest);
      StepKeepsDone(Run(s, rest), e, u);
    }
  }

  // Once a unit has succeeded it is never invoked again, whatever crashes and recoveries
  // follow, as long as its input stays the same.
  lemma {:induction false} SuccessIsNeverRepeated(before: seq<Event>, after: seq<Event>, e: Event, u: Unit)
    requires u.id in Run(EMPTY, before).epoch.docs && AsksTheSame(after, u)
    requires var doc := Run(EMPTY, before).epoch.docs[u.id]; doc.succeeded && doc.key == u.key
    ensures !Submits(Run(Run(EMPTY, before), after), e, u)
  {
    var s := Run(EMPTY, before);
    var t := Run(s, after);
    RunKeepsInv(EMPTY, before);
    RunKeepsInv(s, after);
    DoneMeans(s, u);
    DoneLasts(s, after, u);
    if Submits(t, e, u) {
      var l := t.live.value;
      SubmitIsGuarded(t, l, e, u);
      assert LiveFits(l, t.epoch.docs);
      PendingIsFresh(l, t.epoch.docs, l.pending[0]);
      ListedBelongs(l.units, l.pending[0]);
    }
  }

  // ----- What a run returns -------------------------------------------------------------------------

  // The results of the first n units, in unit order.
  function Listed(units: seq<Unit>, results: map<Id, Doc>, n: nat): seq<(Id, Doc)>
    requires n <= |units|
  {
    if n == 0 then []
    else if units[n - 1].id in results then Listed(units, results, n - 1) + [(units[n - 1].id, results[units[n - 1].id])]
    else Listed(units, results, n - 1)
  }

  // It lists exactly the units with a result, each once and in unit order.
  lemma {:induction false} ListedInUnitOrder(units: seq<Unit>, results: map<Id, Doc>, n: nat) returns (at: seq<nat>)
    requires n <= |units|
    ensures |at| == |Listed(units, results, n)|
    ensures forall j :: 0 <= j < |at| ==> at[j] < n && units[at[j]].id in results
    ensures forall j :: 0 <= j < |at| ==> Listed(units, results, n)[j] == (units[at[j]].id, results[units[at[j]].id])
    ensures forall i, j :: 0 <= i < j < |at| ==> at[i] < at[j]
    ensures forall i :: 0 <= i < n && units[i].id in results ==> i in at
  {
    at := [];
    if n > 0 {
      at := ListedInUnitOrder(units, results, n - 1);
      var before := Listed(units, results, n - 1);
      if units[n - 1].id in results {
        at := at + [n - 1];
        assert Listed(units, results, n) == before + [(units[n - 1].id, results[units[n - 1].id])];
      } else {
        assert Listed(units, results, n) == before;
      }
      hide Listed;
    }
  }

  predicate Open(pauses: map<Id, Outcome>, id: Id) {
    id in pauses && pauses[id].PausedBy? && !pauses[id].local
  }

  // The first unit, in order, with a pause that concerns the whole run; failing that, the
  // first paused unit.
  predicate Chosen(units: seq<Unit>, pauses: map<Id, Outcome>, k: nat) {
    && k < |units| && units[k].id in pauses && pauses[units[k].id].PausedBy?
    && if Open(pauses, units[k].id) then forall i :: 0 <= i < k ==> !Open(pauses, units[i].id)
       else (forall i :: 0 <= i < |units| ==> !Open(pauses, units[i].id)) && forall i :: 0 <= i < k ==> units[i].id !in pauses
  }

  ghost predicate IsOutcome(l: Live, r: GroupOutcome) {
    match r
    case PausedWith(pause) => exists k: nat :: Chosen(l.units, l.pauses, k) && l.pauses[l.units[k].id].pause == pause
    case Results(docs) => l.pauses == map[] && docs == Listed(l.units, l.results, |l.units|)
  }

  lemma {:induction false} SomeKey<T>(m: map<Id, T>) returns (id: Id)
    requires m != map[]
    ensures id in m
  {
    var none: map<Id, T> := map[];
    assert (forall id :: id !in m) ==> m == none;
    id :| id in m;
  }

  method SelectOutcome(l: Live) returns (r: GroupOutcome)
    requires forall id :: id in l.pauses ==> l.pauses[id].PausedBy? && Belongs(l.units, id)
    ensures IsOutcome(l, r)
    ensures r.PausedWith? <==> l.pauses != map[]
  {
    var units, pauses := l.units, l.pauses;
    if pauses != map[] {
      for i := 0 to |units|
        invariant forall j :: 0 <= j < i ==> !Open(pauses, units[j].id)
      {
        if units[i].id in pauses && !pauses[units[i].id].local {
          assert Chosen(units, pauses, i);
          return PausedWith(pauses[units[i].id].pause);
        }
      }
      for i := 0 to |units|
        invariant forall j :: 0 <= j < i ==> units[j].id !in pauses
      {
        if units[i].id in pauses {
          assert Chosen(units, pauses, i);
          return PausedWith(pauses[units[i].id].pause);
        }
      }
      var id := SomeKey(pauses);
      assert Belongs(units, id);
    }
    var docs := [];
    for i := 0 to |units|
      invariant docs == Listed(units, l.results, i)
    {
      if units[i].id in l.results {
        docs := docs + [(units[i].id, l.results[units[i].id])];
      }
    }
    return Results(docs);
  }

  lemma {:induction false} ChosenIsUnique(units: seq<Unit>, pauses: map<Id, Outcome>, j: nat, k: nat)
    requires Chosen(units, pauses, j) && Chosen(units, pauses, k)
    ensures j == k
  {
    var first, second := if j < k then j else k, if j < k then k else j;
    assert Open(pauses, units[first].id) <==> Open(pauses, units[second].id);
  }

  predicate Returns(events: seq<Event>, l: Live) {
    Run(EMPTY, events).live == Some(l) && Finished(l) && l.pauses == map[]
  }

  // A run that returns results lists, in order, the stored document of each unit that has
  // one; a unit is missing only after a failure that the caller asked to stop at.
  lemma {:induction false} ReturnedResultsAreStored(events: seq<Event>, l: Live, u: Unit)
    requires Returns(events, l) && u in l.units
    ensures var docs := Run(EMPTY, events).epoch.docs;
      && (u.id in l.results <==> u.id in docs) && (u.id in docs ==> l.results[u.id] == docs[u.id])
      && (u.id !in l.results ==> u in l.pending && l.stopSubmitting && l.failFast && AnyFailed(l.results))
  {
    RunKeepsInv(EMPTY, events);
    assert Accounted(l, u);
    if u.id in l.results {
    } else {
      assert u in l.pending;
      assert l.stopSubmitting;
    }
  }

  lemma {:induction false} OmissionHasAListedFailure(events: seq<Event>, l: Live, u: Unit)
    requires Returns(events, l) && u in l.units && u.id !in l.results
    ensures l.failFast && exists v :: v in l.units && v.id in l.results && !l.results[v.id].succeeded
  {
    ReturnedResultsAreStored(events, l, u);
    var id :| id in l.results && !l.results[id].succeeded;
    OnlyListedUnits(events, id);
    var i :| 0 <= i < |l.units| && l.units[i].id == id;
    assert l.units[i] in l.units;
  }

  // Running a finished group again in the same epoch submits nothing of what is stored
  // and starts from the very results that were returned.
  lemma {:induction false} RerunStartsFromTheResults(events: seq<Event>, l: Live, capacity: nat)
    requires Returns(events, l) && capacity >= 1
    ensures var t := Step(Step(Run(EMPTY, events), Return), Begin(l.units, l.failFast, capacity));
      && t.live.Some? && t.live.value.results == l.results && t.epoch == Run(EMPTY, events).epoch
      && (forall u :: u in t.live.value.pending ==> u in l.pending)
      && (l.pending == [] ==> Finished(t.live.value))
  {
    RunKeepsInv(EMPTY, events);
    var s := Run(EMPTY, events);
    var docs := s.epoch.docs;
    RestartIsAStart(s, l, capacity);
    assert ResultsFit(l, docs) && AllBelong(l.units, docs) && NothingToReplay(s.earlier, l.units, docs) && KeysMatch(l.units, docs);
    hide Step, Run, Inv, LiveFits, PlacesFit, EpochFits, ResultsFit, AllBelong, NothingToReplay, KeysMatch, AnyFailed;
    LoadsNothing(s.earlier, docs, l.units, |l.units|);
    FoundIsAll(l.units, docs, |l.units|);
    forall u | u in l.units ensures (u.id in l.results <==> u.id in docs) && (u.id !in docs ==> u in l.pending) {
      ReturnedResultsAreStored(events, l, u);
    }
    SameResults(l, docs);
    assert l.units[..|l.units|] == l.units;
    MissingIs(l.units, docs, |l.units|);
    if l.pending == [] {
      NothingMissing(l.units, docs, |l.units|);
    }
  }

  lemma {:induction false} RestartIsAStart(s: State, l: Live, capacity: nat)
    requires Inv(s) && s.live == Some(l) && Finished(l) && capacity >= 1
    ensures Step(Step(s, Return), Begin(l.units, l.failFast, capacity)) == Started(s.(live := None), l.units, l.failFast, capacity)
  {
    hide Started;
  }

  lemma {:induction false} SameResults(l: Live, docs: map<Id, Doc>)
    requires ResultsFit(l, docs) && AllBelong(l.units, docs)
    requires forall u :: u in l.units ==> (u.id in l.results <==> u.id in docs)
    ensures docs == l.results
  {
    forall id | id in docs ensures id in l.results {
      var i :| 0 <= i < |l.units| && l.units[i].id == id;
      assert l.units[i] in l.units;
    }
    forall id | id in l.results ensures id in docs {
    }
    assert docs.Keys == l.results.Keys;
    assert forall id :: id in docs ==> docs[id] == l.results[id];
  }

  lemma {:induction false} LoadsNothing(earlier: seq<map<Id, Doc>>, docs: map<Id, Doc>, units: seq<Unit>, n: nat)
    requires n <= |units| && NothingToReplay(earlier, units, docs)
    ensures Loaded(earlier, docs, units, n) == docs
  {
    if n > 0 {
      LoadsNothing(earlier, docs, units, n - 1);
      assert units[n - 1] in units;
    }
  }

  lemma {:induction false} FoundIsAll(units: seq<Unit>, docs: map<Id, Doc>, n: nat)
    requires n == |units| && AllBelong(units, docs)
    ensures Found(units, docs, n) == docs
  {
    forall id | id in docs ensures id in Found(units, docs, n) {
      var i :| 0 <= i < |units| && units[i].id == id;
    }
    assert Found(units, docs, n).Keys == docs.Keys;
  }

  lemma {:induction false} NothingMissing(units: seq<Unit>, docs: map<Id, Doc>, n: nat)
    requires n <= |units| && forall u :: u in units ==> u.id in docs
    ensures Missing(units, docs, n) == []
  {
    if n > 0 {
      NothingMissing(units, docs, n - 1);
      assert units[n - 1] in units;
    }
  }

  // ----- Progress -----------------------------------------------------------------------------------

  function WorkLeft(l: Live): nat { |l.pending| + |l.inFlight| }

  // While a run is on, its work never grows, and falls with every worker taken in.
  lemma {:induction false} WorkOnlyFalls(events: seq<Event>, e: Event)
    requires var s := Run(EMPTY, events); s.live.Some? && Step(s, e).live.Some?
    ensures var l, t := Run(EMPTY, events).live.value, Step(Run(EMPTY, events), e).live.value;
      && WorkLeft(t) <= WorkLeft(l)
      && (e.Collect? && t != l ==> WorkLeft(t) < WorkLeft(l))
  {
    RunKeepsInv(EMPTY, events);
    var s := Run(EMPTY, events);
    var l := s.live.value;
    if e.Submit? && l.phase.Submitting? && !SubmissionDone(l) {
      OneMoreInFlight(l.inFlight, l.pending[0]);
    }
    if e.Collect? && e.id in l.settled {
      assert SettledFits(l, s.epoch.docs);
      CollectFrees(l, e.id);
      assert (l.inFlight - {e.id}).Keys == l.inFlight.Keys - {e.id};
    }
  }

  // What the group's own thread can do, reading only targets within its capacity.
  predicate IsOwnMove(l: Live, e: Event) {
    (e.Poll? && 1 <= e.target <= l.capacity) || e.Submit? || e.Collect? || e.Return?
  }

  // A run is never stuck: its own thread can move it on, or some worker is still busy.
  lemma {:induction false} NeverStuck(events: seq<Event>)
    requires Run(EMPTY, events).live.Some?
    ensures var s := Run(EMPTY, events);
      || (exists e :: IsOwnMove(s.live.value, e) && Step(s, e) != s)
      || (exists id :: id in s.live.value.inFlight && id !in s.live.value.settled)
  {
    RunKeepsInv(EMPTY, events);
    var s := Run(EMPTY, events);
    var l := s.live.value;
    if !(exists id :: id in l.inFlight && id !in l.settled) {
      if Finished(l) || Joined(l) {
        ReturnMoves(s, l);
      } else if l.phase.Submitting? && !SubmissionDone(l) {
        SubmitMoves(s, l);
      } else if id :| id in l.settled {
        CollectMoves(s, l, id);
      } else {
        IdleRunPolls(s, l);
      }
    }
  }

  lemma {:induction false} ReturnMoves(s: State, l: Live)
    requires s.live == Some(l) && (Finished(l) || Joined(l))
    ensures IsOwnMove(l, Return) && Step(s, Return) != s
  {
  }

  lemma {:induction false} SubmitMoves(s: State, l: Live)
    requires s.live == Some(l) && l.phase.Submitting? && !SubmissionDone(l)
    ensures IsOwnMove(l, Submit) && Step(s, Submit) != s
  {
    assert |Submitted(l).pending| < |l.pending|;
  }

  lemma {:induction false} CollectMoves(s: State, l: Live, id: Id)
    requires s.live == Some(l) && !l.phase.Joining? && id in l.settled && (l.phase.Submitting? ==> SubmissionDone(l))
    ensures IsOwnMove(l, Collect(id)) && Step(s, Collect(id)) != s
  {
    assert id !in Collected(l, id).settled;
  }

  lemma {:induction false} IdleRunPolls(s: State, l: Live)
    requires s.live == Some(l) && !l.phase.Joining? && !Finished(l) && 1 <= l.capacity
    requires (forall id :: id !in l.settled) && (forall id :: id in l.inFlight ==> id in l.settled)
    requires l.phase.Submitting? ==> SubmissionDone(l)
    ensures IsOwnMove(l, Poll(1)) && Step(s, Poll(1)) != s
  {
    var none: map<Id, Unit> := map[];
    assert forall id :: id !in l.inFlight;
    assert l.inFlight == none;
    assert l.phase.Polling? && l.pending != [];
    assert Step(s, Poll(1)).live.value.phase.Submitting?;
  }

  // A run is left only when its workers are done: a submitted worker is never abandoned
  // but by the process dying.
  lemma {:induction false} ReturnWaitsForWorkers(events: seq<Event>, e: Event)
    requires var s := Run(EMPTY, events); s.live.Some? && Step(s, e).live.None? && !e.Crash?
    ensures var l := Run(EMPTY, events).live.value; e.Return? && forall id :: id in l.inFlight ==> id in l.settled
  {
    hide Collected, Submitted, Bound, SubmissionDone;
  }

  // A worker's outcome reaches the group: a stored document becomes the unit's result, a
  // pause is kept as the caller judged it, and a stop or an exception ends the run.
  lemma {:induction false} OutcomeReachesTheGroup(events: seq<Event>, id: Id, outcome: Outcome)
    requires var s := Run(EMPTY, events);
      && s.live.Some? && id in s.live.value.inFlight && id !in s.live.value.settled
      && !s.live.value.phase.Joining? && (s.live.value.phase.Submitting? ==> SubmissionDone(s.live.value))
    ensures var s := Run(EMPTY, events); var unit := s.live.value.inFlight[id];
      var t := Step(Step(s, Settle(id, outcome)), Collect(id));
      && t.live.Some? && id !in t.live.value.inFlight
      && match outcome
         case Recorded(doc) =>
           && id in t.live.value.results && t.live.value.results[id] == doc.(key := unit.key)
           && id in t.epoch.docs && t.epoch.docs[id] == doc.(key := unit.key) && !t.live.value.phase.Joining?
         case PausedBy(pause, local) =>
           && id in t.live.value.pauses && t.live.value.pauses[id] == outcome
           && t.epoch.docs == s.epoch.docs && !t.live.value.phase.Joining?
         case Stopped => t.live.value.phase.Joining? && t.epoch.docs == s.epoch.docs
         case Raised(stored) =>
           && t.live.value.phase.Joining?
           && (if stored.Some? then id in t.epoch.docs && t.epoch.docs[id] == stored.value.(key := unit.key) else t.epoch.docs == s.epoch.docs)
  {
    RunKeepsInv(EMPTY, events);
    var s := Run(EMPTY, events);
    hide Run, Inv;
    OutcomeIsTaken(s, s.live.value, id, outcome);
  }

  lemma {:induction false} OutcomeIsTaken(s: State, l: Live, id: Id, outcome: Outcome)
    requires s.live == Some(l) && id in l.inFlight && id !in l.settled
    requires !l.phase.Joining? && (l.phase.Submitting? ==> SubmissionDone(l))
    ensures var bound := Bound(l.inFlight[id], outcome); var settled := l.(settled := l.settled[id := bound]);
      && Step(Step(s, Settle(id, outcome)), Collect(id)).live == Some(Collected(settled, id))
      && Step(Step(s, Settle(id, outcome)), Collect(id)).epoch.docs ==
           if StoredBy(bound).Some? then s.epoch.docs[id := StoredBy(bound).value] else s.epoch.docs
  {
    hide Collected;
    var t := Step(s, Settle(id, outcome));
    assert t.live.Some? && SubmissionDone(t.live.value) == SubmissionDone(l);
  }
}
