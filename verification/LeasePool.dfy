// A bounded pool of file leases shared by processes: scans interleave with releases
// and crashes, and pool instances may know different capacities.
module LeasePool {
  import opened Common

  type Pid = nat

  // A slot's lease is the candidate of a running scan or has been granted.
  datatype Holder = Probe(pid: Pid) | Granted(pid: Pid)

  // A scan counts the slots it could not take; busy records which ones they were,
  // for the statements below.
  datatype Client =
    | Idle(capacity: nat)
    | Scanning(capacity: nat, limit: nat, slot: nat, held: nat, candidate: Option<nat>, busy: set<nat>)

  // capacity is the persisted one, zero before the first pool is bound.
  datatype State = State(capacity: nat, acquireLock: Option<Pid>, slots: map<nat, Holder>, clients: map<Pid, Client>)

  datatype Event =
    | Bind(pid: Pid, requested: nat)
    | StartAcquire(pid: Pid, limit: nat)
    | Scan(pid: Pid)
    | Release(pid: Pid, slot: nat)
    | Crash(pid: Pid)

  const EMPTY := State(0, None, map[], map[])

  // ----- Steps ----------------------------------------------------------------------

  // The larger capacity is persisted, and every instance is bound to it.
  function BoundCapacity(persisted: nat, requested: nat): nat {
    if requested > persisted then requested else persisted
  }

  // One slot, or after the last one the decision.
  function ScanStep(s: State, p: Pid, c: Client): State
    requires c.Scanning?
  {
    if c.slot < c.capacity then
      if c.slot in s.slots then
        s.(clients := s.clients[p := c.(slot := c.slot + 1, held := c.held + 1, busy := c.busy + {c.slot})])
      else if c.candidate.None? then
        s.(slots := s.slots[c.slot := Probe(p)], clients := s.clients[p := c.(slot := c.slot + 1, candidate := Some(c.slot))])
      else s.(clients := s.clients[p := c.(slot := c.slot + 1)])
    else
      var decided := s.(acquireLock := None, clients := s.clients[p := Idle(c.capacity)]);
      if c.candidate.None? then decided
      else if c.held < c.limit then decided.(slots := s.slots[c.candidate.value := Granted(p)])
      else decided.(slots := s.slots - {c.candidate.value})
  }

  function Step(s: State, e: Event): State {
    match e
    case Bind(p, requested) =>
      if p in s.clients || requested < 1 then s
      else
        var capacity := BoundCapacity(s.capacity, requested);
        s.(capacity := capacity, clients := s.clients[p := Idle(capacity)])
    case StartAcquire(p, limit) =>
      if p !in s.clients || !s.clients[p].Idle? || !(1 <= limit <= s.clients[p].capacity) || s.acquireLock.Some? then s
      else s.(acquireLock := Some(p), clients := s.clients[p := Scanning(s.clients[p].capacity, limit, 0, 0, None, {})])
    case Scan(p) => if p in s.clients && s.clients[p].Scanning? then ScanStep(s, p, s.clients[p]) else s
    case Release(p, slot) =>
      if slot in s.slots && s.slots[slot] == Granted(p) then s.(slots := s.slots - {slot}) else s
    case Crash(p) =>
      State(s.capacity, if s.acquireLock == Some(p) then None else s.acquireLock,
            map slot | slot in s.slots && s.slots[slot].pid != p :: s.slots[slot], s.clients - {p})
  }

  function Run(s: State, events: seq<Event>): State
    decreases |events|
  {
    if events == [] then s else Step(Run(s, events[..|events| - 1]), events[|events| - 1])
  }

  // ----- The invariant -----------------------------------------------------------------

  // The granted slots below a bound.
  function GrantedBelow(s: State, bound: nat): set<nat> {
    set slot | slot in s.slots && slot < bound && s.slots[slot].Granted?
  }

  predicate ScanFits(s: State, p: Pid, c: Client)
    requires c.Scanning?
  {
    && s.acquireLock == Some(p) && 1 <= c.limit <= c.capacity && c.slot <= c.capacity
    && |c.busy| == c.held && (forall b :: b in c.busy ==> b < c.slot)
    && GrantedBelow(s, c.slot) <= c.busy
    && (if c.candidate.None? then forall j :: 0 <= j < c.slot ==> j in c.busy
        else c.candidate.value < c.slot && c.candidate.value !in c.busy
             && c.candidate.value in s.slots && s.slots[c.candidate.value] == Probe(p)
             && forall j :: 0 <= j < c.candidate.value ==> j in c.busy)
  }

  ghost predicate Inv(s: State) {
    && (forall slot :: slot in s.slots ==> slot < s.capacity)
    && (forall p :: p in s.clients ==> 1 <= s.clients[p].capacity <= s.capacity)
    && (forall p :: p in s.clients && s.clients[p].Scanning? ==> ScanFits(s, p, s.clients[p]))
    && (s.acquireLock.Some? ==> s.acquireLock.value in s.clients && s.clients[s.acquireLock.value].Scanning?)
    && (forall slot :: slot in s.slots && s.slots[slot].Probe? ==> IsCandidate(s, s.slots[slot].pid, slot))
  }

  // Slot is the candidate of p's running scan.
  predicate IsCandidate(s: State, p: Pid, slot: nat) {
    p in s.clients && s.clients[p].Scanning? && s.clients[p].candidate == Some(slot)
  }

  // Only the holder of the acquisition lock scans.
  lemma {:induction false} OnlyLockHolderScans(s: State)
    requires Inv(s)
    ensures forall q :: q in s.clients && s.clients[q].Scanning? <==> s.acquireLock == Some(q)
  {
    forall q | q in s.clients && s.clients[q].Scanning? ensures s.acquireLock == Some(q) {
      assert ScanFits(s, q, s.clients[q]);
    }
  }

  lemma {:induction false} ProbeKeepsFit(s: State, p: Pid)
    requires Inv(s) && p in s.clients && s.clients[p].Scanning? && s.clients[p].slot < s.clients[p].capacity
    ensures var t := ScanStep(s, p, s.clients[p]); t.clients[p].Scanning? && ScanFits(t, p, t.clients[p])
  {
    var c := s.clients[p];
    var t := ScanStep(s, p, c);
    assert ScanFits(s, p, c);
    forall slot | slot in GrantedBelow(t, c.slot + 1) ensures slot in t.clients[p].busy {
      assert slot < c.slot ==> slot in GrantedBelow(s, c.slot);
    }
  }

  lemma {:induction false} ScanKeepsInv(s: State, p: Pid)
    requires Inv(s) && p in s.clients && s.clients[p].Scanning?
    ensures Inv(ScanStep(s, p, s.clients[p]))
  {
    assert ScanFits(s, p, s.clients[p]);
    if s.clients[p].slot < s.clients[p].capacity {
      ProbeKeepsInv(s, p);
    } else {
      DecisionKeepsInv(s, p);
    }
  }

  lemma {:induction false} ProbeKeepsInv(s: State, p: Pid)
    requires Inv(s) && p in s.clients && s.clients[p].Scanning? && s.clients[p].slot < s.clients[p].capacity
    ensures Inv(ScanStep(s, p, s.clients[p]))
  {
    var t := ScanStep(s, p, s.clients[p]);
    ProbeKeepsFit(s, p);
    OnlyLockHolderScans(s);
    OnlyCandidateIsProbe(s, p);
    assert s.acquireLock == Some(p) by {
      hide *;
    }
    hide ScanFits;
    forall slot | slot in t.slots && t.slots[slot].Probe? ensures IsCandidate(t, t.slots[slot].pid, slot) {
      assert slot in s.slots && s.slots[slot].Probe? ==> IsCandidate(s, s.slots[slot].pid, slot);
    }
  }

  lemma {:induction false} DecisionKeepsInv(s: State, p: Pid)
    requires Inv(s) && p in s.clients && s.clients[p].Scanning? && s.clients[p].slot >= s.clients[p].capacity
    ensures Inv(ScanStep(s, p, s.clients[p]))
  {
    var c, t := s.clients[p], ScanStep(s, p, s.clients[p]);
    OnlyLockHolderScans(s);
    OnlyCandidateIsProbe(s, p);
    assert c.candidate.Some? ==> c.candidate.value in s.slots by {
      assert ScanFits(s, p, c);
    }
    hide ScanFits;
    forall q | q in t.clients ensures !t.clients[q].Scanning? {
    }
  }

  lemma {:induction false} StepKeepsInv(s: State, e: Event)
    requires Inv(s)
    ensures Inv(Step(s, e))
  {
    var t := Step(s, e);
    match e
    case Scan(p) =>
      if p in s.clients && s.clients[p].Scanning? {
        ScanKeepsInv(s, p);
      }
    case StartAcquire(p, _) =>
      if t != s {
        assert GrantedBelow(t, 0) == {};
        OnlyLockHolderScans(s);
      }
    case Bind(_, _) => FreeingKeepsInv(s, e);
    case Release(_, _) => FreeingKeepsInv(s, e);
    case Crash(_) => FreeingKeepsInv(s, e);
  }

  // Steps that grant nothing and leave running scans alone.
  lemma {:induction false} FreeingKeepsInv(s: State, e: Event)
    requires Inv(s) && (e.Bind? || e.Release? || e.Crash?)
    ensures Inv(Step(s, e))
  {
    var t := Step(s, e);
    forall q | q in t.clients && t.clients[q].Scanning? ensures ScanFits(t, q, t.clients[q]) {
      assert ScanFits(s, q, s.clients[q]);
      assert GrantedBelow(t, t.clients[q].slot) <= GrantedBelow(s, t.clients[q].slot);
    }
  }

  lemma {:induction false} RunKeepsInv(s: State, events: seq<Event>)
    requires Inv(s)
    ensures Inv(Run(s, events)) && s.capacity <= Run(s, events).capacity
    decreases |events|
  {
    if events != [] {
      RunKeepsInv(s, events[..|events| - 1]);
      StepKeepsInv(Run(s, events[..|events| - 1]), events[|events| - 1]);
    }
  }

  // ----- What the pool bounds --------------------------------------------------------------

  lemma {:induction false} BelowIsBounded(a: set<nat>, bound: nat)
    requires forall x :: x in a ==> x < bound
    ensures |a| <= bound
    decreases bound
  {
    if bound > 0 {
      BelowIsBounded(a - {bound - 1}, bound - 1);
      if bound - 1 in a {
        assert a == (a - {bound - 1}) + {bound - 1};
      }
    } else {
      assert a == {};
    }
  }

  // At the instant of a grant with a limit, at most that many slots within the
  // granting instance's capacity are granted, whatever was released or crashed while
  // the scan ran; and the slot granted is the first one the scan found free.
  lemma {:induction false} GrantRespectsLimit(events: seq<Event>, p: Pid)
    requires var s := Run(EMPTY, events);
      p in s.clients && s.clients[p].Scanning? && s.clients[p].slot == s.clients[p].capacity
    ensures var s := Run(EMPTY, events); var c, t := s.clients[p], Step(s, Scan(p));
      var grants := c.candidate.Some? && c.held < c.limit;
      && (grants <==> GrantedBelow(t, c.capacity) != GrantedBelow(s, c.capacity))
      && (grants ==>
            && t.slots[c.candidate.value] == Granted(p) && c.candidate.value < c.capacity
            && |GrantedBelow(t, c.capacity)| <= c.limit
            && forall j :: 0 <= j < c.candidate.value ==> j in c.busy)
      && (!grants ==> t.slots.Keys == GrantedSlots(s))
  {
    RunKeepsInv(EMPTY, events);
    DecisionRespectsLimit(Run(EMPTY, events), p);
  }

  lemma {:induction false} DecisionRespectsLimit(s: State, p: Pid)
    requires Inv(s) && p in s.clients && s.clients[p].Scanning? && s.clients[p].slot == s.clients[p].capacity
    ensures var c, t := s.clients[p], ScanStep(s, p, s.clients[p]);
      var grants := c.candidate.Some? && c.held < c.limit;
      && (grants <==> GrantedBelow(t, c.capacity) != GrantedBelow(s, c.capacity))
      && (grants ==>
            && t.slots[c.candidate.value] == Granted(p) && c.candidate.value < c.capacity
            && |GrantedBelow(t, c.capacity)| <= c.limit
            && forall j :: 0 <= j < c.candidate.value ==> j in c.busy)
      && (!grants ==> t.slots.Keys == GrantedSlots(s))
  {
    var c := s.clients[p];
    assert ScanFits(s, p, c);
    OnlyCandidateIsProbe(s, p);
    hide Inv;
    if c.candidate.Some? && c.held < c.limit {
      GrantAddsCandidate(s, p);
    } else {
      RefusalGrantsNothing(s, p);
    }
  }

  lemma {:induction false} GrantAddsCandidate(s: State, p: Pid)
    requires p in s.clients && s.clients[p].Scanning? && s.clients[p].slot == s.clients[p].capacity && ScanFits(s, p, s.clients[p])
    requires s.clients[p].candidate.Some? && s.clients[p].held < s.clients[p].limit
    ensures var c, t := s.clients[p], ScanStep(s, p, s.clients[p]); var slot := c.candidate.value;
      && slot in t.slots && t.slots[slot] == Granted(p) && slot < c.capacity
      && GrantedBelow(t, c.capacity) == GrantedBelow(s, c.capacity) + {slot} && slot !in GrantedBelow(s, c.capacity)
      && |GrantedBelow(t, c.capacity)| <= c.limit
  {
    var c, t := s.clients[p], ScanStep(s, p, s.clients[p]);
    var slot := c.candidate.value;
    assert GrantedBelow(t, c.capacity) == GrantedBelow(s, c.capacity) + {slot};
    SubsetIsNoLarger(GrantedBelow(s, c.capacity), c.busy);
  }

  lemma {:induction false} RefusalGrantsNothing(s: State, p: Pid)
    requires p in s.clients && s.clients[p].Scanning? && s.clients[p].slot == s.clients[p].capacity && ScanFits(s, p, s.clients[p])
    requires !(s.clients[p].candidate.Some? && s.clients[p].held < s.clients[p].limit)
    requires forall slot :: slot in s.slots && s.slots[slot].Probe? ==> s.clients[p].candidate == Some(slot)
    ensures var c, t := s.clients[p], ScanStep(s, p, s.clients[p]);
      GrantedBelow(t, c.capacity) == GrantedBelow(s, c.capacity) && t.slots.Keys == GrantedSlots(s)
  {
  }

  function GrantedSlots(s: State): set<nat> {
    set slot | slot in s.slots && s.slots[slot].Granted?
  }

  lemma {:induction false} OnlyCandidateIsProbe(s: State, p: Pid)
    requires Inv(s) && p in s.clients && s.clients[p].Scanning?
    ensures forall slot :: slot in s.slots && s.slots[slot].Probe? ==> s.clients[p].candidate == Some(slot)
  {
    assert ScanFits(s, p, s.clients[p]);
    forall slot | slot in s.slots && s.slots[slot].Probe? ensures s.clients[p].candidate == Some(slot) {
      var q := s.slots[slot].pid;
      assert IsCandidate(s, q, slot) && ScanFits(s, q, s.clients[q]);
    }
  }

  // Over all instances and every run: no more slots are held than the persisted
  // capacity, which never shrinks; and a probe outlives its scan on no exit, since
  // only a scanning client holds one, at most one, and nobody else while it scans.
  lemma {:induction false} PoolIsBounded(events: seq<Event>, e: Event)
    ensures var s := Run(EMPTY, events);
      && |s.slots| <= s.capacity <= Step(s, e).capacity
      && (s.acquireLock.None? ==> s.slots.Keys == GrantedSlots(s))
      && (forall a, b :: a in s.slots && b in s.slots && s.slots[a].Probe? && s.slots[b].Probe? ==> a == b)
  {
    RunKeepsInv(EMPTY, events);
    var s := Run(EMPTY, events);
    BelowIsBounded(s.slots.Keys, s.capacity);
    assert |s.slots| == |s.slots.Keys|;
    forall slot | slot in s.slots && s.slots[slot].Probe? ensures s.acquireLock == Some(s.slots[slot].pid) {
      assert IsCandidate(s, s.slots[slot].pid, slot);
      assert ScanFits(s, s.slots[slot].pid, s.clients[s.slots[slot].pid]);
    }
    if s.acquireLock.Some? {
      OnlyCandidateIsProbe(s, s.acquireLock.value);
    }
  }

  // ----- Binding and holding -----------------------------------------------------------------

  // Event i binds a new instance.
  ghost predicate Binds(events: seq<Event>, i: nat)
    requires i < |events|
  {
    events[i].Bind? && events[i].requested >= 1 && events[i].pid !in Run(EMPTY, events[..i]).clients
  }

  // The persisted capacity is the largest that any instance asked for.
  lemma {:induction false} CapacityIsTheLargestRequest(events: seq<Event>)
    ensures var capacity := Run(EMPTY, events).capacity;
      && (forall i :: 0 <= i < |events| && Binds(events, i) ==> events[i].requested <= capacity)
      && (capacity == 0 || exists i :: 0 <= i < |events| && Binds(events, i) && events[i].requested == capacity)
  {
    if events != [] {
      var n: nat := |events| - 1;
      var before, e := events[..n], events[n];
      CapacityIsTheLargestRequest(before);
      BindingTakesTheLarger(Run(EMPTY, before), e);
      assert Run(EMPTY, events).capacity == Step(Run(EMPTY, before), e).capacity;
      assert Binds(events, n) <==> e.Bind? && e.requested >= 1 && e.pid !in Run(EMPTY, before).clients;
      hide Run, Step;
      forall i | 0 <= i < n ensures events[i] == before[i] && (Binds(events, i) <==> Binds(before, i)) {
        assert before[..i] == events[..i];
      }
      hide Binds;
      if Run(EMPTY, events).capacity != 0 && !(Binds(events, n) && e.requested == Run(EMPTY, events).capacity) {
        var i :| 0 <= i < n && Binds(before, i) && before[i].requested == Run(EMPTY, before).capacity;
        assert Binds(events, i);
      }
    }
  }

  // A new instance works with the capacity persisted when it was bound.
  lemma {:induction false} BindingTakesTheLarger(s: State, e: Event)
    ensures var t := Step(s, e); var binds := e.Bind? && e.requested >= 1 && e.pid !in s.clients;
      && t.capacity == (if binds && e.requested > s.capacity then e.requested else s.capacity)
      && (binds ==> t.slots == s.slots && t.acquireLock == s.acquireLock && t.clients == s.clients[e.pid := Idle(t.capacity)])
  {
  }

  // A granted slot stays with its holder until that holder releases it or dies.
  lemma {:induction false} HolderKeepsItsSlot(events: seq<Event>, e: Event, slot: nat, q: Pid)
    requires var s := Run(EMPTY, events); slot in s.slots && s.slots[slot] == Granted(q)
    requires e != Release(q, slot) && e != Crash(q)
    ensures var t := Step(Run(EMPTY, events), e); slot in t.slots && t.slots[slot] == Granted(q)
  {
    RunKeepsInv(EMPTY, events);
    var s := Run(EMPTY, events);
    if e.Scan? && e.pid in s.clients && s.clients[e.pid].Scanning? {
      assert ScanFits(s, e.pid, s.clients[e.pid]);
    }
  }

  // ----- Releasing ---------------------------------------------------------------------------

  // A holder's release, or its death, frees just what it held; nobody else can free it.
  lemma {:induction false} ReleaseFreesItsSlot(s: State, p: Pid, slot: nat)
    requires slot in s.slots && s.slots[slot].Granted?
    ensures var t := Step(s, Release(p, slot));
      t.slots == if s.slots[slot].pid == p then s.slots - {slot} else s.slots
    ensures var t := Step(s, Crash(p));
      forall x :: x in t.slots <==> x in s.slots && s.slots[x].pid != p
    ensures forall x :: x in Step(s, Crash(p)).slots ==> Step(s, Crash(p)).slots[x] == s.slots[x]
  {
  }

  // A slot released within an instance's capacity can be had at once by an acquisition
  // whose limit the others leave room for.
  lemma {:induction false} ReleasedSlotCanBeAcquired(events: seq<Event>, q: Pid, slot: nat, p: Pid, limit: nat)
    requires var s := Run(EMPTY, events);
      && slot in s.slots && s.slots[slot] == Granted(q)
      && p in s.clients && s.clients[p].Idle? && s.acquireLock.None? && 1 <= limit <= s.clients[p].capacity
      && slot < s.clients[p].capacity && |GrantedBelow(s, s.clients[p].capacity)| <= limit
    ensures var s := Run(EMPTY, events); var capacity := s.clients[p].capacity;
      var t := ScanToEnd(Step(Step(s, Release(q, slot)), StartAcquire(p, limit)), p);
      |GrantedBelow(t, capacity)| == |GrantedBelow(s, capacity)|
  {
    var s, more := Run(EMPTY, events), events + [Release(q, slot)];
    assert more[..|events|] == events;
    var released := Step(s, Release(q, slot));
    assert Run(EMPTY, more) == released;
    var capacity := s.clients[p].capacity;
    assert GrantedBelow(released, capacity) == GrantedBelow(s, capacity) - {slot};
    UndisturbedAcquireSucceedsIff(more, p, limit);
  }

  // ----- A scan that nobody disturbs -----------------------------------------------------------

  // Scanning to the end and deciding.
  function ScanToEnd(s: State, p: Pid): State
    requires p in s.clients && s.clients[p].Scanning? && s.clients[p].slot <= s.clients[p].capacity
    decreases s.clients[p].capacity - s.clients[p].slot
  {
    var t := ScanStep(s, p, s.clients[p]);
    if s.clients[p].slot == s.clients[p].capacity then t else ScanToEnd(t, p)
  }

  // The scan's outcome: one more slot granted, or none.
  ghost predicate Decided(s: State, t: State, capacity: nat, limit: nat) {
    if |GrantedBelow(s, capacity)| < limit
    then exists slot :: OneMore(s, t, capacity, slot)
    else GrantedBelow(t, capacity) == GrantedBelow(s, capacity)
  }

  ghost predicate OneMore(s: State, t: State, capacity: nat, slot: nat) {
    && slot < capacity && slot !in GrantedBelow(s, capacity)
    && GrantedBelow(t, capacity) == GrantedBelow(s, capacity) + {slot}
  }

  lemma {:induction false} UndisturbedScan(s: State, p: Pid)
    requires Inv(s) && p in s.clients && s.clients[p].Scanning?
    requires s.clients[p].busy == GrantedBelow(s, s.clients[p].slot)
    ensures s.clients[p].slot <= s.clients[p].capacity
    ensures Decided(s, ScanToEnd(s, p), s.clients[p].capacity, s.clients[p].limit)
    decreases s.clients[p].capacity - s.clients[p].slot
  {
    var c := s.clients[p];
    assert c.slot <= c.capacity by {
      assert ScanFits(s, p, c);
    }
    if c.slot < c.capacity {
      var t := ScanStep(s, p, c);
      UndisturbedProbe(s, p);
      ScanKeepsInv(s, p);
      hide Inv, ScanStep, GrantedBelow;
      UndisturbedScan(t, p);
      SameGrantsSameDecision(s, t, ScanToEnd(t, p), c.capacity, c.limit);
    } else {
      UndisturbedDecision(s, p);
    }
  }

  lemma {:induction false} SameGrantsSameDecision(s: State, t: State, end: State, capacity: nat, limit: nat)
    requires GrantedBelow(s, capacity) == GrantedBelow(t, capacity) && Decided(t, end, capacity, limit)
    ensures Decided(s, end, capacity, limit)
  {
    hide GrantedBelow;
    if |GrantedBelow(t, capacity)| < limit {
      var slot :| OneMore(t, end, capacity, slot);
      assert OneMore(s, end, capacity, slot);
    }
  }

  lemma {:induction false} UndisturbedProbe(s: State, p: Pid)
    requires Inv(s) && p in s.clients && s.clients[p].Scanning? && s.clients[p].slot < s.clients[p].capacity
    requires s.clients[p].busy == GrantedBelow(s, s.clients[p].slot)
    ensures var c, t := s.clients[p], ScanStep(s, p, s.clients[p]);
      && p in t.clients && t.clients[p].Scanning? && t.clients[p].slot == c.slot + 1
      && t.clients[p].capacity == c.capacity && t.clients[p].limit == c.limit
      && t.clients[p].busy == GrantedBelow(t, c.slot + 1)
      && GrantedBelow(t, c.capacity) == GrantedBelow(s, c.capacity)
  {
    OnlyCandidateIsProbe(s, p);
    var c, t := s.clients[p], ScanStep(s, p, s.clients[p]);
    assert c.candidate.Some? ==> c.candidate.value < c.slot by {
      assert ScanFits(s, p, c);
    }
    hide Inv;
    assert c.slot in s.slots ==> s.slots[c.slot].Granted?;
    forall slot ensures slot in t.clients[p].busy <==> slot in GrantedBelow(t, c.slot + 1) {
    }
    forall slot ensures slot in GrantedBelow(t, c.capacity) <==> slot in GrantedBelow(s, c.capacity) {
    }
  }

  lemma {:induction false} UndisturbedDecision(s: State, p: Pid)
    requires Inv(s) && p in s.clients && s.clients[p].Scanning? && s.clients[p].slot == s.clients[p].capacity
    requires s.clients[p].busy == GrantedBelow(s, s.clients[p].slot)
    ensures Decided(s, ScanStep(s, p, s.clients[p]), s.clients[p].capacity, s.clients[p].limit)
  {
    var c, t := s.clients[p], ScanStep(s, p, s.clients[p]);
    assert ScanFits(s, p, c);
    assert |c.busy| == c.held && c.limit <= c.capacity;
    hide Inv, ScanFits;
    if c.candidate.None? {
      AllBusy(c.busy, c.capacity);
      assert GrantedBelow(t, c.capacity) == GrantedBelow(s, c.capacity);
    } else if c.held < c.limit {
      assert OneMore(s, t, c.capacity, c.candidate.value);
    } else {
      assert GrantedBelow(t, c.capacity) == GrantedBelow(s, c.capacity);
    }
  }

  lemma {:induction false} AllBusy(busy: set<nat>, bound: nat)
    requires forall j :: 0 <= j < bound ==> j in busy
    ensures |busy| >= bound
    decreases bound
  {
    if bound > 0 {
      AllBusy(busy - {bound - 1}, bound - 1);
    }
  }

  // The scan gives the acquisition lock back.
  lemma {:induction false} ScanEndsIdle(s: State, p: Pid)
    requires p in s.clients && s.clients[p].Scanning? && s.clients[p].slot <= s.clients[p].capacity
    ensures var t := ScanToEnd(s, p);
      t.acquireLock.None? && t.capacity == s.capacity && t.clients == s.clients[p := Idle(s.clients[p].capacity)]
    decreases s.clients[p].capacity - s.clients[p].slot
  {
    if s.clients[p].slot < s.clients[p].capacity {
      ScanEndsIdle(ScanStep(s, p, s.clients[p]), p);
    }
  }

  // An acquisition that runs alone succeeds exactly when fewer slots than its limit
  // are granted within the instance's capacity; either way it ends.
  lemma {:induction false} UndisturbedAcquireSucceedsIff(events: seq<Event>, p: Pid, limit: nat)
    requires var s := Run(EMPTY, events);
      p in s.clients && s.clients[p].Idle? && s.acquireLock.None? && 1 <= limit <= s.clients[p].capacity
    ensures var s := Run(EMPTY, events); var capacity := s.clients[p].capacity;
      var t := ScanToEnd(Step(s, StartAcquire(p, limit)), p);
      && |GrantedBelow(t, capacity)| ==
           |GrantedBelow(s, capacity)| + (if |GrantedBelow(s, capacity)| < limit then 1 else 0)
      && t.acquireLock.None? && t.clients == s.clients && t.capacity == s.capacity
  {
    RunKeepsInv(EMPTY, events);
    var s := Run(EMPTY, events);
    hide *;
    AcquireAlone(s, p, limit);
    OneMoreGranted(s, p, limit);
  }

  lemma {:induction false} AcquireAlone(s: State, p: Pid, limit: nat)
    requires p in s.clients && s.clients[p].Idle? && s.acquireLock.None? && 1 <= limit <= s.clients[p].capacity
    ensures var t := ScanToEnd(Step(s, StartAcquire(p, limit)), p);
      t.acquireLock.None? && t.clients == s.clients && t.capacity == s.capacity
  {
    hide ScanToEnd;
    ScanEndsIdle(Step(s, StartAcquire(p, limit)), p);
    assert s.clients[p := s.clients[p]] == s.clients;
  }

  lemma {:induction false} OneMoreGranted(s: State, p: Pid, limit: nat)
    requires Inv(s) && p in s.clients && s.clients[p].Idle? && s.acquireLock.None? && 1 <= limit <= s.clients[p].capacity
    ensures var capacity := s.clients[p].capacity;
      var t := ScanToEnd(Step(s, StartAcquire(p, limit)), p);
      |GrantedBelow(t, capacity)| == |GrantedBelow(s, capacity)| + if |GrantedBelow(s, capacity)| < limit then 1 else 0
  {
    var started := Step(s, StartAcquire(p, limit));
    StepKeepsInv(s, StartAcquire(p, limit));
    assert GrantedBelow(started, 0) == {};
    assert GrantedBelow(started, s.clients[p].capacity) == GrantedBelow(s, s.clients[p].capacity);
    hide Inv, ScanToEnd;
    UndisturbedScan(started, p);
  }
}
