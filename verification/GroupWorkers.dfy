// The worker-count control of a running group. Any number of processes call
// initialize and set at once; each reads the control, decides, and commits by a
// compare-and-swap on the revision, retrying when another process was faster.
module GroupWorkers {
  import opened Common

  datatype Control = Control(revision: int, target: int, capacity: int)

  datatype Ask = Initialize(target: int, capacity: int) | Set(target: int)

  // Initialize answers with the control in force, Set with the one before and the one after.
  datatype Answer = InForce(control: Control) | Changed(before: Control, after: Control) | Refused

  // A call about to read, one about to commit what it made of its reading, and a finished one.
  datatype Call = Reading(ask: Ask) | Committing(ask: Ask, seen: Option<Control>, next: Control) | Answered(answer: Answer)

  // A call together with the answer it took effect with.
  datatype Effect = Effect(call: int, ask: Ask, answer: Answer)

  // The control file, the calls, and, for reasoning only, the effects in order and the
  // controls written so far.
  datatype State = State(stored: Option<Control>, calls: map<int, Call>, effects: seq<Effect>, written: seq<Control>)

  datatype Event = Start(call: int, ask: Ask) | Read(call: int) | Commit(call: int) | Die(call: int)

  // ----- The protocol -----------------------------------------------------------------------

  predicate WellFormed(ask: Ask) {
    match ask
    case Initialize(target, capacity) => 1 <= target <= capacity
    case Set(target) => 1 <= target
  }

  datatype Decision = Reply(answer: Answer) | Attempt(next: Control)

  // What a call does with the control it read.
  function Decide(ask: Ask, seen: Option<Control>): Decision {
    match ask
    case Initialize(target, capacity) =>
      if seen.None? then Attempt(Control(0, target, capacity))
      else if seen.value.capacity >= capacity then Reply(InForce(seen.value))
      else Attempt(Control(seen.value.revision + 1, seen.value.target, capacity))
    case Set(target) =>
      if seen.None? || target > seen.value.capacity then Reply(Refused)
      else if target == seen.value.target then Reply(Changed(seen.value, seen.value))
      else Attempt(Control(seen.value.revision + 1, target, seen.value.capacity))
  }

  // The store's create, when nothing was read, and its compare-and-swap otherwise: does
  // it succeed, and does it write?
  function TryWrite(stored: Option<Control>, seen: Option<Control>, next: Control): (bool, bool) {
    if seen.None? then (stored.None? || stored.value == next, stored.None?)
    else
      var ok := stored.Some? && stored.value.revision == seen.value.revision && next.revision == seen.value.revision + 1
                && next.capacity >= stored.value.capacity;
      (ok, ok)
  }

  function Committed(ask: Ask, seen: Option<Control>, next: Control): Answer {
    if ask.Set? && seen.Some? then Changed(seen.value, next) else InForce(next)
  }

  function Answering(s: State, id: int, ask: Ask, answer: Answer): State {
    s.(calls := s.calls[id := Answered(answer)], effects := s.effects + [Effect(id, ask, answer)])
  }

  function Step(s: State, e: Event): State {
    match e
    case Start(id, ask) =>
      if id in s.calls then s
      else if !WellFormed(ask) then Answering(s, id, ask, Refused)
      else s.(calls := s.calls[id := Reading(ask)])
    case Read(id) =>
      if id !in s.calls || !s.calls[id].Reading? then s
      else
        var ask := s.calls[id].ask;
        (match Decide(ask, s.stored)
         case Reply(answer) => Answering(s, id, ask, answer)
         case Attempt(next) => s.(calls := s.calls[id := Committing(ask, s.stored, next)]))
    case Commit(id) =>
      if id !in s.calls || !s.calls[id].Committing? then s
      else
        var Committing(ask, seen, next) := s.calls[id];
        var (ok, writes) := TryWrite(s.stored, seen, next);
        if !ok then s.(calls := s.calls[id := Reading(ask)])
        else
          var t := if writes then s.(stored := Some(next), written := s.written + [next]) else s;
          Answering(t, id, ask, Committed(ask, seen, next))
    case Die(id) => s.(calls := s.calls - {id})
  }

  function Run(events: seq<Event>): State {
    if events == [] then State(None, map[], [], []) else Step(Run(events[..|events| - 1]), events[|events| - 1])
  }

  // ----- The sequential specification ---------------------------------------------------------

  // One call at a time: what it answers and what it leaves.
  function Serve(c: Option<Control>, ask: Ask): (Answer, Option<Control>) {
    if !WellFormed(ask) then (Refused, c)
    else
      match ask
      case Initialize(target, capacity) =>
        var after :=
          if c.None? then Control(0, target, capacity)
          else if c.value.capacity < capacity then Control(c.value.revision + 1, c.value.target, capacity)
          else c.value;
        (InForce(after), Some(after))
      case Set(target) =>
        if c.None? || target > c.value.capacity then (Refused, c)
        else
          var after := if target == c.value.target then c.value else Control(c.value.revision + 1, target, c.value.capacity);
          (Changed(c.value, after), Some(after))
  }

  function After(effects: seq<Effect>, n: nat): Option<Control>
    requires n <= |effects|
  {
    if n == 0 then None else Serve(After(effects, n - 1), effects[n - 1].ask).1
  }

  predicate ServedAt(effects: seq<Effect>, k: nat)
    requires k < |effects|
  {
    effects[k].answer == Serve(After(effects, k), effects[k].ask).0
  }

  // ----- The invariant ------------------------------------------------------------------------

  ghost predicate Sequential(s: State) {
    s.stored == After(s.effects, |s.effects|) && forall k :: 0 <= k < |s.effects| ==> ServedAt(s.effects, k)
  }

  // The k-th control written has revision k, and the last one is stored.
  ghost predicate Numbered(s: State) {
    && (s.stored == if s.written == [] then None else Some(s.written[|s.written| - 1]))
    && forall k :: 0 <= k < |s.written| ==> s.written[k].revision == k
  }

  ghost predicate CallFits(s: State, call: Call) {
    match call
    case Reading(ask) => WellFormed(ask)
    case Committing(ask, seen, next) =>
      WellFormed(ask) && Decide(ask, seen) == Attempt(next) && (seen.Some? ==> seen.value in s.written)
    case Answered(_) => true
  }

  ghost predicate Inv(s: State) {
    Sequential(s) && Numbered(s) && forall id :: id in s.calls ==> CallFits(s, s.calls[id])
  }

  lemma {:induction false} AfterOfPrefix(effects: seq<Effect>, more: seq<Effect>, n: nat)
    requires n <= |effects|
    ensures After(effects + more, n) == After(effects, n)
  {
    if n > 0 {
      AfterOfPrefix(effects, more, n - 1);
    }
  }

  // A call takes effect with the answer, and leaves the control, that it would have had alone.
  lemma {:induction false} TakesEffect(s: State, t: State, id: int, ask: Ask)
    requires Sequential(s)
    requires t.effects == s.effects + [Effect(id, ask, Serve(s.stored, ask).0)] && t.stored == Serve(s.stored, ask).1
    ensures Sequential(t)
  {
    var n := |s.effects|;
    var last := [t.effects[n]];
    AfterOfPrefix(s.effects, last, n);
    forall k | 0 <= k < |t.effects| ensures ServedAt(t.effects, k) {
      AfterOfPrefix(s.effects, last, k);
      if k < n {
        assert ServedAt(s.effects, k);
      }
    }
  }

  // Equal revisions mean equal controls: nothing written is ever written over unseen.
  lemma {:induction false} SeenIsStored(s: State, seen: Control)
    requires Numbered(s) && seen in s.written && s.stored.Some? && s.stored.value.revision == seen.revision
    ensures s.stored == Some(seen)
  {
    var k :| 0 <= k < |s.written| && s.written[k] == seen;
  }

  lemma {:induction false} StepKeepsInv(s: State, e: Event)
    requires Inv(s)
    ensures Inv(Step(s, e))
  {
    var t := Step(s, e);
    match e
    case Start(id, ask) =>
      if id !in s.calls && !WellFormed(ask) {
        TakesEffect(s, t, id, ask);
      }
    case Read(id) =>
      if id in s.calls && s.calls[id].Reading? {
        assert CallFits(s, s.calls[id]);
        if Decide(s.calls[id].ask, s.stored).Reply? {
          TakesEffect(s, t, id, s.calls[id].ask);
        }
      }
    case Commit(id) =>
      if id in s.calls && s.calls[id].Committing? {
        CommitKeepsInv(s, id);
      }
    case Die(_) =>
  }

  lemma {:induction false} CommitKeepsInv(s: State, id: int)
    requires Inv(s) && id in s.calls && s.calls[id].Committing?
    ensures Inv(Step(s, Commit(id)))
  {
    var t := Step(s, Commit(id));
    var Committing(ask, seen, next) := s.calls[id];
    assert CallFits(s, s.calls[id]);
    if TryWrite(s.stored, seen, next).0 {
      if seen.Some? {
        SeenIsStored(s, seen.value);
      }
      TakesEffect(s, t, id, ask);
    }
    forall other | other in t.calls ensures CallFits(t, t.calls[other]) {
      if other != id {
        assert CallFits(s, s.calls[other]);
      }
    }
  }

  lemma {:induction false} RunKeepsInv(events: seq<Event>)
    ensures Inv(Run(events))
  {
    if events != [] {
      RunKeepsInv(events[..|events| - 1]);
      StepKeepsInv(Run(events[..|events| - 1]), events[|events| - 1]);
    }
  }

  // ----- What holds of every run ----------------------------------------------------------------

  // However calls interleave and die, the stored control and every answer given are those
  // of the calls made one at a time, in the order in which they took effect.
  lemma {:induction false} EveryRunIsSequential(events: seq<Event>)
    ensures Run(events).stored == After(Run(events).effects, |Run(events).effects|)
    ensures forall k :: 0 <= k < |Run(events).effects| ==> ServedAt(Run(events).effects, k)
  {
    RunKeepsInv(events);
  }

  // A call that has been answered took effect with that answer.
  lemma {:induction false} AnswersTookEffect(events: seq<Event>, id: int)
    requires id in Run(events).calls && Run(events).calls[id].Answered?
    ensures exists k :: 0 <= k < |Run(events).effects| && Run(events).effects[k].call == id
                        && Run(events).effects[k].answer == Run(events).calls[id].answer
  {
    var rest, e := events[..|events| - 1], events[|events| - 1];
    var s, t := Run(rest), Run(events);
    if id in s.calls && s.calls[id].Answered? {
      AnswersTookEffect(rest, id);
      var k :| 0 <= k < |s.effects| && s.effects[k].call == id && s.effects[k].answer == s.calls[id].answer;
      EffectsStay(s, e, id);
      assert t.effects[k] == s.effects[k];
    } else {
      assert t.effects[|t.effects| - 1].call == id;
    }
  }

  // What took effect had been asked, by that call.
  lemma {:induction false} EffectsWereAsked(events: seq<Event>, k: nat)
    requires k < |Run(events).effects|
    ensures Start(Run(events).effects[k].call, Run(events).effects[k].ask) in events
  {
    var n: nat := |events| - 1;
    var rest, e := events[..n], events[n];
    var s := Run(rest);
    assert events == rest + [e];
    if k < |s.effects| {
      EffectsWereAsked(rest, k);
      EffectsStay(s, e, e.call);
      assert Run(events).effects[k] == s.effects[k];
    } else if !e.Start? {
      CallsWereAsked(rest, e.call);
    }
  }

  lemma {:induction false} CallsWereAsked(events: seq<Event>, id: int)
    requires id in Run(events).calls && !Run(events).calls[id].Answered?
    ensures Start(id, Run(events).calls[id].ask) in events
  {
    var n: nat := |events| - 1;
    var rest, e := events[..n], events[n];
    assert events == rest + [e];
    if id in Run(rest).calls && !Run(rest).calls[id].Answered? {
      CallsWereAsked(rest, id);
    }
  }

  // A call that nobody disturbs is answered after one reading and one commit, as if it
  // were the only one.
  lemma {:induction false} LoneCallEnds(events: seq<Event>, id: int, ask: Ask)
    requires id !in Run(events).calls
    ensures var s, t := Run(events), Step(Step(Step(Run(events), Start(id, ask)), Read(id)), Commit(id));
      t.calls == s.calls[id := Answered(Serve(s.stored, ask).0)] && t.stored == Serve(s.stored, ask).1
  {
  }

  lemma {:induction false} EffectsStay(s: State, e: Event, id: int)
    ensures |s.effects| <= |Step(s, e).effects| && Step(s, e).effects[..|s.effects|] == s.effects
    ensures id in s.calls && s.calls[id].Answered? && id in Step(s, e).calls ==> Step(s, e).calls[id] == s.calls[id]
  {
  }

  // A commit is turned away only when another process wrote since the call read.
  lemma {:induction false} RetriesOnlyAfterAnotherWrite(events: seq<Event>, id: int)
    requires id in Run(events).calls && Run(events).calls[id].Committing?
    ensures var s := Run(events); var Committing(_, seen, next) := s.calls[id];
      Step(s, Commit(id)).calls[id].Reading? <==> s.stored != seen && !(seen.None? && s.stored == Some(next))
  {
    RunKeepsInv(events);
    var s := Run(events);
    assert CallFits(s, s.calls[id]);
    var seen := s.calls[id].seen;
    if seen.Some? && s.stored.Some? && s.stored.value.revision == seen.value.revision {
      SeenIsStored(s, seen.value);
    }
  }

  // A set that is not refused changes the target it found to the one asked for, and
  // nothing else, counting a real change; it is refused, without any effect, exactly when
  // that target is out of bounds.
  lemma {:induction false} SetTakesHold(events: seq<Event>, k: nat)
    requires k < |Run(events).effects| && Run(events).effects[k].ask.Set?
    ensures var e, c := Run(events).effects[k], After(Run(events).effects, k);
      && (e.answer.Refused? <==> c.None? || !(1 <= e.ask.target <= c.value.capacity))
      && (e.answer.Refused? ==> After(Run(events).effects, k + 1) == c)
      && (!e.answer.Refused? ==>
            && e.answer.Changed? && c == Some(e.answer.before)
            && After(Run(events).effects, k + 1) == Some(e.answer.after)
            && e.answer.after.target == e.ask.target && e.answer.after.capacity == e.answer.before.capacity
            && e.answer.after.revision == e.answer.before.revision + (if e.ask.target == e.answer.before.target then 0 else 1))
  {
    RunKeepsInv(events);
    assert ServedAt(Run(events).effects, k);
  }

  // An initialize is refused exactly when its target is not between one and its capacity.
  // The first one stores what was asked, at revision zero; a later one at most enlarges
  // the capacity.
  lemma {:induction false} InitializeTakesHold(events: seq<Event>, k: nat)
    requires k < |Run(events).effects| && Run(events).effects[k].ask.Initialize?
    ensures var e, c := Run(events).effects[k], After(Run(events).effects, k);
      && (e.answer.Refused? <==> !(1 <= e.ask.target <= e.ask.capacity))
      && (e.answer.Refused? ==> After(Run(events).effects, k + 1) == c)
      && (!e.answer.Refused? ==> e.answer.InForce? && After(Run(events).effects, k + 1) == Some(e.answer.control))
      && (!e.answer.Refused? && c.None? ==> e.answer.control == Control(0, e.ask.target, e.ask.capacity))
      && (!e.answer.Refused? && c.Some? ==>
            && e.answer.control.target == c.value.target
            && e.answer.control.capacity == (if c.value.capacity < e.ask.capacity then e.ask.capacity else c.value.capacity)
            && e.answer.control.revision == c.value.revision + (if c.value.capacity < e.ask.capacity then 1 else 0))
  {
    RunKeepsInv(events);
    assert ServedAt(Run(events).effects, k);
  }

  ghost predicate InBounds(c: Control) {
    0 <= c.revision && 1 <= c.target <= c.capacity
  }

  // The control is always in bounds; its capacity never shrinks; revisions count changes.
  lemma {:induction false} ControlIsAlwaysInBounds(effects: seq<Effect>, n: nat)
    requires n <= |effects|
    ensures After(effects, n).Some? ==> InBounds(After(effects, n).value)
  {
    if n > 0 {
      ControlIsAlwaysInBounds(effects, n - 1);
    }
  }

  lemma {:induction false} CapacityNeverShrinks(effects: seq<Effect>, n: nat, m: nat)
    requires n <= m <= |effects| && After(effects, n).Some?
    ensures var (a, b) := (After(effects, n), After(effects, m));
      && b.Some? && a.value.capacity <= b.value.capacity && a.value.revision <= b.value.revision
      && (a.value.revision == b.value.revision ==> a == b)
    decreases m
  {
    if n < m {
      CapacityNeverShrinks(effects, n, m - 1);
    }
  }

  // Some call after the first n asked for more than this capacity.
  ghost predicate AskedForMore(effects: seq<Effect>, n: nat, m: nat, capacity: int)
    requires n <= m <= |effects|
  {
    exists k :: n <= k < m && effects[k].ask.Initialize? && effects[k].ask.capacity > capacity && WellFormed(effects[k].ask)
  }

  // The capacity a runner started with still stands exactly as long as nobody has asked
  // for more.
  lemma {:induction false} CapacityGrowsOnlyOnRequest(effects: seq<Effect>, n: nat, m: nat)
    requires n <= m <= |effects| && After(effects, n).Some?
    ensures After(effects, m).Some?
    ensures After(effects, m).value.capacity == After(effects, n).value.capacity
            <==> !AskedForMore(effects, n, m, After(effects, n).value.capacity)
    decreases m
  {
    var capacity := After(effects, n).value.capacity;
    if n < m {
      CapacityGrowsOnlyOnRequest(effects, n, m - 1);
      CapacityNeverShrinks(effects, n, m - 1);
      assert After(effects, m) == Serve(After(effects, m - 1), effects[m - 1].ask).1;
      if AskedForMore(effects, n, m - 1, capacity) {
        var k :| n <= k < m - 1 && effects[k].ask.Initialize? && effects[k].ask.capacity > capacity && WellFormed(effects[k].ask);
        assert AskedForMore(effects, n, m, capacity);
      }
    }
  }

  // Some accepted set after the first n effects asked for more than this capacity.
  ghost predicate RaisedBeyond(effects: seq<Effect>, n: nat, m: nat, capacity: int)
    requires n <= m <= |effects|
  {
    exists k :: n <= k < m && effects[k].ask.Set? && effects[k].answer.Changed? && effects[k].ask.target > capacity
  }

  ghost predicate TargetsWithin(effects: seq<Effect>, n: nat, m: nat, capacity: int)
    requires n <= m <= |effects|
  {
    forall k: nat :: n <= k <= m ==> TargetAt(effects, k, capacity)
  }

  ghost predicate TargetAt(effects: seq<Effect>, k: nat, capacity: int) {
    k <= |effects| && After(effects, k).Some? && 1 <= After(effects, k).value.target <= capacity
  }

  // The targets stay within a capacity exactly as long as no accepted set exceeds it.
  lemma {:induction false} TargetsStayWithinIff(effects: seq<Effect>, n: nat, m: nat, capacity: int)
    requires n <= m <= |effects| && TargetAt(effects, n, capacity)
    requires forall k :: 0 <= k < |effects| ==> ServedAt(effects, k)
    ensures TargetsWithin(effects, n, m, capacity) <==> !RaisedBeyond(effects, n, m, capacity)
    decreases m
  {
    if n < m {
      TargetsStayWithinIff(effects, n, m - 1, capacity);
      var last: nat := m - 1;
      assert ServedAt(effects, last);
      CapacityNeverShrinks(effects, n, last);
      ControlIsAlwaysInBounds(effects, m);
      var raises := effects[last].ask.Set? && effects[last].answer.Changed? && effects[last].ask.target > capacity;
      assert TargetAt(effects, last, capacity) ==> (TargetAt(effects, m, capacity) <==> !raises);
      assert RaisedBeyond(effects, n, m, capacity) <==> RaisedBeyond(effects, n, last, capacity) || raises;
      assert TargetsWithin(effects, n, m, capacity) <==> TargetsWithin(effects, n, last, capacity) && TargetAt(effects, m, capacity);
    }
  }

  // Between its initialize, effect k, and the end of the run, a runner may read the
  // control at any moment; it accepts a target between one and its capacity.
  ghost predicate EveryReadIsAccepted(events: seq<Event>, k: nat, capacity: int) {
    forall i :: 0 <= i <= |events| && k < |Run(events[..i]).effects| ==>
      Run(events[..i]).stored.Some? && 1 <= Run(events[..i]).stored.value.target <= capacity
  }

  // The group runner takes its capacity from its own initialize call and then keeps
  // reading targets: it can read none that it rejects exactly when no accepted set after
  // that call exceeds its capacity. An operator's target survives the initialize.
  lemma {:induction false} RunnerReadsAcceptableTargets(events: seq<Event>, k: nat)
    requires k < |Run(events).effects| && Run(events).effects[k].ask.Initialize? && WellFormed(Run(events).effects[k].ask)
    ensures var effects := Run(events).effects;
      && effects[k].answer.InForce? && effects[k].answer.control.capacity >= effects[k].ask.capacity
      && (EveryReadIsAccepted(events, k, effects[k].answer.control.capacity)
          <==> !RaisedBeyond(effects, k + 1, |effects|, effects[k].answer.control.capacity))
      && (After(effects, k).Some? ==> effects[k].answer.control.target == After(effects, k).value.target)
  {
    RunKeepsInv(events);
    var effects, next := Run(events).effects, k + 1;
    assert ServedAt(effects, k);
    assert After(effects, next) == Some(effects[k].answer.control);
    ControlIsAlwaysInBounds(effects, next);
    var capacity := effects[k].answer.control.capacity;
    TargetsStayWithinIff(effects, next, |effects|, capacity);
    ReadsAreEffects(events, k, capacity);
  }

  // What can be read is the control after some effect, and every such control can.
  lemma {:induction false} ReadsAreEffects(events: seq<Event>, k: nat, capacity: int)
    requires k < |Run(events).effects|
    ensures EveryReadIsAccepted(events, k, capacity)
            <==> TargetsWithin(Run(events).effects, k + 1, |Run(events).effects|, capacity)
  {
    var effects := Run(events).effects;
    forall i | 0 <= i <= |events|
      ensures |Run(events[..i]).effects| <= |effects|
      ensures Run(events[..i]).stored == After(effects, |Run(events[..i]).effects|)
    {
      StoredAtMoment(events, i);
    }
    if EveryReadIsAccepted(events, k, capacity) {
      forall n: nat | k + 1 <= n <= |effects| ensures TargetAt(effects, n, capacity) {
        var i := MomentOf(events, n);
      }
    }
    if TargetsWithin(effects, k + 1, |effects|, capacity) {
      forall i | 0 <= i <= |events| && k < |Run(events[..i]).effects|
        ensures Run(events[..i]).stored.Some? && 1 <= Run(events[..i]).stored.value.target <= capacity
      {
        assert TargetAt(effects, |Run(events[..i]).effects|, capacity);
      }
    }
  }

  lemma {:induction false} EffectsArePrefix(events: seq<Event>, i: nat)
    requires i <= |events|
    ensures Run(events[..i]).effects <= Run(events).effects
  {
    if i == |events| {
      assert events[..i] == events;
    } else {
      var before := events[..|events| - 1];
      EffectsArePrefix(before, i);
      assert before[..i] == events[..i];
      EffectsStay(Run(before), events[|events| - 1], 0);
    }
  }

  lemma {:induction false} StoredAtMoment(events: seq<Event>, i: nat)
    requires i <= |events|
    ensures var n := |Run(events[..i]).effects|; n <= |Run(events).effects| && Run(events[..i]).stored == After(Run(events).effects, n)
  {
    var s, effects := Run(events[..i]), Run(events).effects;
    EffectsArePrefix(events, i);
    RunKeepsInv(events[..i]);
    assert effects == s.effects + effects[|s.effects|..];
    AfterOfPrefix(s.effects, effects[|s.effects|..], |s.effects|);
  }

  // Effects appear one at a time.
  lemma {:induction false} MomentOf(events: seq<Event>, n: nat) returns (i: nat)
    requires n <= |Run(events).effects|
    ensures i <= |events| && |Run(events[..i]).effects| == n
  {
    if n == |Run(events).effects| {
      i := |events|;
      assert events[..i] == events;
    } else {
      var before := events[..|events| - 1];
      assert |Run(events).effects| <= |Run(before).effects| + 1;
      i := MomentOf(before, n);
      assert before[..i] == events[..i];
    }
  }

  // A second initialize enlarges the capacity, and a set then goes beyond that of the
  // first one's runner.
  lemma {:induction false} RunnerCanReadTooLargeTarget() returns (events: seq<Event>)
    ensures var s := Run(events);
      && |s.effects| == 3 && s.effects[0] == Effect(0, Initialize(1, 2), InForce(Control(0, 1, 2)))
      && s.stored == Some(Control(2, 4, 5))
      && RaisedBeyond(s.effects, 1, 3, 2) && !EveryReadIsAccepted(events, 0, 2)
  {
    var calls := [Initialize(1, 2), Initialize(1, 5), Set(4)];
    var first, second, third := Control(0, 1, 2), Control(1, 1, 5), Control(2, 4, 5);
    var one := Effect(0, calls[0], InForce(first));
    var two := Effect(1, calls[1], InForce(second));
    var three := Effect(2, calls[2], Changed(second, third));
    var done := Answered(InForce(first));
    var a := CallAlone([], 0, calls[0], first);
    assert Run(a) == State(Some(first), map[0 := done], [one], [first]);
    var b := CallAlone(a, 1, calls[1], second);
    assert Run(b).stored == Some(second) && Run(b).effects == [one, two];
    events := CallAlone(b, 2, calls[2], third);
    assert Run(events).effects == [one, two, three];
    assert Run(events).effects[2] == three;
    assert events[..|events|] == events;
  }

  // A call that runs alone and writes.
  lemma {:induction false} CallAlone(before: seq<Event>, id: int, ask: Ask, next: Control) returns (events: seq<Event>)
    requires id !in Run(before).calls && WellFormed(ask) && Decide(ask, Run(before).stored) == Attempt(next)
    ensures var s, t := Run(before), Run(events);
      && t.stored == Some(next) && t.effects == s.effects + [Effect(id, ask, Committed(ask, s.stored, next))]
      && t.calls == s.calls[id := Answered(Committed(ask, s.stored, next))] && t.written == s.written + [next]
  {
    RunKeepsInv(before);
    var s := Run(before);
    var one, two, three := before + [Start(id, ask)], before + [Start(id, ask), Read(id)], before + [Start(id, ask), Read(id), Commit(id)];
    assert one[..|before|] == before && two[..|one|] == one && three[..|two|] == two;
    assert Run(one) == Step(s, Start(id, ask));
    assert Run(two) == Step(Run(one), Read(id));
    assert Run(three) == Step(Run(two), Commit(id));
    events := three;
  }
}
