// The immutable artifact store under concurrent publishers and crashes, for an
// arbitrary content hash.
module ArtifactStore {
  import opened Common

  type Pid = nat

  // Both content and artifact ids are hashed by the same function.
  type Hash = string -> int

  datatype Digest = Digest(value: int, size: nat)

  datatype Request = Request(id: string, content: string, media: string, reused: Option<string>)

  datatype Manifest = Manifest(id: string, digest: Digest, media: string, reused: Option<string>)

  datatype Ref = Ref(id: string, digest: Digest, media: string)

  // A publisher waits for a lease, checks under it, writes under it.
  datatype Phase = WaitObject | CheckObject | WriteObject | WaitManifest | CheckManifest | WriteManifest

  datatype Publisher = Publisher(request: Request, phase: Phase)

  datatype Outcome = Returned(ref: Ref) | ObjectConflict | ManifestConflict

  // objects is keyed by content hash, manifests by id hash, leases alike. outcomes
  // records every finished publication.
  datatype State = State(objects: map<int, string>, manifests: map<int, Manifest>,
                         objectLeases: map<int, Pid>, manifestLeases: map<int, Pid>,
                         publishers: map<Pid, Publisher>, outcomes: set<(Request, Outcome)>)

  datatype Event = Start(pid: Pid, request: Request) | Act(pid: Pid) | Crash(pid: Pid)

  const EMPTY := State(map[], map[], map[], map[], map[], {})

  function DigestOf(hash: Hash, content: string): Digest {
    Digest(hash(content), |content|)
  }

  function ManifestOf(hash: Hash, r: Request): Manifest {
    Manifest(r.id, DigestOf(hash, r.content), r.media, r.reused)
  }

  function RefOf(m: Manifest): Ref {
    Ref(m.id, m.digest, m.media)
  }

  // ----- Steps ----------------------------------------------------------------------

  function Goto(s: State, p: Pid, phase: Phase): State
    requires p in s.publishers
  {
    s.(publishers := s.publishers[p := s.publishers[p].(phase := phase)])
  }

  function Drop(leases: map<int, Pid>, p: Pid): map<int, Pid> {
    map k | k in leases && leases[k] != p :: leases[k]
  }

  // The publisher is gone and its leases are free.
  function Exit(s: State, p: Pid): State {
    s.(publishers := s.publishers - {p}, objectLeases := Drop(s.objectLeases, p), manifestLeases := Drop(s.manifestLeases, p))
  }

  function Finish(s: State, p: Pid, outcome: Outcome): State
    requires p in s.publishers
  {
    Exit(s, p).(outcomes := s.outcomes + {(s.publishers[p].request, outcome)})
  }

  function ActOf(hash: Hash, s: State, p: Pid): State
    requires p in s.publishers
  {
    var r := s.publishers[p].request;
    var content, id := hash(r.content), hash(r.id);
    match s.publishers[p].phase
    case WaitObject =>
      if content in s.objectLeases then s
      else Goto(s, p, CheckObject).(objectLeases := s.objectLeases[content := p])
    case CheckObject =>
      if content !in s.objects then Goto(s, p, WriteObject)
      else if s.objects[content] != r.content then Finish(s, p, ObjectConflict)
      else Goto(s, p, WaitManifest).(objectLeases := Drop(s.objectLeases, p))
    case WriteObject =>
      Goto(s, p, WaitManifest).(objects := s.objects[content := r.content], objectLeases := Drop(s.objectLeases, p))
    case WaitManifest =>
      if id in s.manifestLeases then s
      else Goto(s, p, CheckManifest).(manifestLeases := s.manifestLeases[id := p])
    case CheckManifest =>
      if id !in s.manifests then Goto(s, p, WriteManifest)
      else if s.manifests[id] != ManifestOf(hash, r) then Finish(s, p, ManifestConflict)
      else Finish(s, p, Returned(RefOf(ManifestOf(hash, r))))
    case WriteManifest =>
      Finish(s.(manifests := s.manifests[id := ManifestOf(hash, r)]), p, Returned(RefOf(ManifestOf(hash, r))))
  }

  function Step(hash: Hash, s: State, e: Event): State {
    match e
    case Start(p, r) => if p in s.publishers then s else s.(publishers := s.publishers[p := Publisher(r, WaitObject)])
    case Act(p) => if p in s.publishers then ActOf(hash, s, p) else s
    case Crash(p) => Exit(s, p)
  }

  function Run(hash: Hash, s: State, events: seq<Event>): State
    decreases |events|
  {
    if events == [] then s else Step(hash, Run(hash, s, events[..|events| - 1]), events[|events| - 1])
  }

  // ----- Readers -----------------------------------------------------------------------

  datatype Failure = Corrupt | Missing

  function ReadBytes(hash: Hash, s: State, ref: Ref): Result<string, Failure> {
    var path := hash(ref.id);
    if path !in s.manifests then Err(Missing)
    else
      var m := s.manifests[path];
      if m.id != ref.id || RefOf(m) != ref then Err(Corrupt)
      else if m.digest.value !in s.objects then Err(Missing)
      else
        var content := s.objects[m.digest.value];
        if DigestOf(hash, content) != ref.digest then Err(Corrupt) else Ok(content)
  }

  function Find(hash: Hash, s: State, id: string): Result<Option<Ref>, Failure> {
    var path := hash(id);
    if path !in s.manifests then Ok(None)
    else
      var m := s.manifests[path];
      if m.id != id then Err(Corrupt)
      else
        var content := ReadBytes(hash, s, RefOf(m));
        if content.Err? then Err(content.error) else Ok(Some(RefOf(m)))
  }

  // ----- The invariant ------------------------------------------------------------------

  predicate HoldsObjectLease(phase: Phase) {
    phase.CheckObject? || phase.WriteObject?
  }

  predicate HoldsManifestLease(phase: Phase) {
    phase.CheckManifest? || phase.WriteManifest?
  }

  // The stored object of r is r's own content.
  predicate ObjectStored(hash: Hash, s: State, r: Request) {
    hash(r.content) in s.objects && s.objects[hash(r.content)] == r.content
  }

  predicate PublisherFits(hash: Hash, s: State, p: Pid, u: Publisher) {
    var content, id := hash(u.request.content), hash(u.request.id);
    && (HoldsObjectLease(u.phase) ==> content in s.objectLeases && s.objectLeases[content] == p)
    && (u.phase.WriteObject? ==> content !in s.objects)
    && (u.phase.WaitManifest? || HoldsManifestLease(u.phase) ==> ObjectStored(hash, s, u.request))
    && (HoldsManifestLease(u.phase) ==> id in s.manifestLeases && s.manifestLeases[id] == p)
    && (u.phase.WriteManifest? ==> id !in s.manifests)
  }

  // A manifest stands at its id's hash and names an object with its digest.
  predicate ManifestFits(hash: Hash, s: State, path: int, m: Manifest) {
    && hash(m.id) == path && m.digest.value in s.objects
    && DigestOf(hash, s.objects[m.digest.value]) == m.digest
  }

  predicate OutcomeFits(hash: Hash, s: State, r: Request, outcome: Outcome) {
    match outcome
    case Returned(ref) =>
      && ref == RefOf(ManifestOf(hash, r)) && ObjectStored(hash, s, r)
      && hash(r.id) in s.manifests && s.manifests[hash(r.id)] == ManifestOf(hash, r)
    case ObjectConflict =>
      hash(r.content) in s.objects && s.objects[hash(r.content)] != r.content
    case ManifestConflict =>
      hash(r.id) in s.manifests && s.manifests[hash(r.id)] != ManifestOf(hash, r)
  }

  ghost predicate Inv(hash: Hash, s: State) {
    && (forall v :: v in s.objects ==> hash(s.objects[v]) == v)
    && (forall path :: path in s.manifests ==> ManifestFits(hash, s, path, s.manifests[path]))
    && (forall p :: p in s.publishers ==> PublisherFits(hash, s, p, s.publishers[p]))
    && (forall o :: o in s.outcomes ==> OutcomeFits(hash, s, o.0, o.1))
  }

  // Nothing stored is ever changed or removed.
  ghost predicate Keeps(s: State, t: State) {
    && (forall v :: v in s.objects ==> v in t.objects && t.objects[v] == s.objects[v])
    && (forall path :: path in s.manifests ==> path in t.manifests && t.manifests[path] == s.manifests[path])
    && s.outcomes <= t.outcomes
  }

  lemma {:induction false} StepKeeps(hash: Hash, s: State, e: Event)
    requires Inv(hash, s)
    ensures Keeps(s, Step(hash, s, e))
  {
    if e.Act? && e.pid in s.publishers {
      assert PublisherFits(hash, s, e.pid, s.publishers[e.pid]);
    }
  }

  lemma {:induction false} StoredStays(hash: Hash, s: State, t: State)
    requires Inv(hash, s) && Keeps(s, t)
    ensures forall path :: path in s.manifests ==> ManifestFits(hash, t, path, s.manifests[path])
    ensures forall o :: o in s.outcomes ==> OutcomeFits(hash, t, o.0, o.1)
  {
    forall path | path in s.manifests ensures ManifestFits(hash, t, path, s.manifests[path]) {
      assert ManifestFits(hash, s, path, s.manifests[path]);
    }
    forall o | o in s.outcomes ensures OutcomeFits(hash, t, o.0, o.1) {
      assert OutcomeFits(hash, s, o.0, o.1);
      var content := hash(o.0.content);
      assert content in s.objects ==> content in t.objects && t.objects[content] == s.objects[content];
    }
  }

  // A publisher other than p still fits after a step of p: p frees only its own
  // leases, and writes only where it holds the lease.
  lemma {:induction false} OthersFit(hash: Hash, s: State, p: Pid, q: Pid)
    requires Inv(hash, s) && p in s.publishers && q in s.publishers && q != p
    ensures PublisherFits(hash, ActOf(hash, s, p), q, s.publishers[q])
  {
    assert PublisherFits(hash, s, p, s.publishers[p]);
    assert PublisherFits(hash, s, q, s.publishers[q]);
  }

  lemma {:induction false} SelfFits(hash: Hash, s: State, p: Pid)
    requires Inv(hash, s) && p in s.publishers
    ensures var t := ActOf(hash, s, p); p in t.publishers ==> PublisherFits(hash, t, p, t.publishers[p])
  {
    assert PublisherFits(hash, s, p, s.publishers[p]);
    hide Inv, Drop, ManifestOf, RefOf;
  }

  // Only p moves or leaves.
  ghost predicate OnlyMoves(s: State, t: State, p: Pid) {
    t.publishers.Keys <= s.publishers.Keys && forall q :: q in t.publishers && q != p ==> t.publishers[q] == s.publishers[q]
  }

  lemma {:induction false} OthersStay(hash: Hash, s: State, p: Pid)
    requires p in s.publishers
    ensures OnlyMoves(s, ActOf(hash, s, p), p)
  {
    hide Drop, ManifestOf, RefOf;
    if s.publishers[p].phase.WaitObject? || s.publishers[p].phase.CheckObject? || s.publishers[p].phase.WriteObject? {
      OthersStayAtObject(hash, s, p);
    }
  }

  lemma {:induction false} OthersStayAtObject(hash: Hash, s: State, p: Pid)
    requires p in s.publishers
    requires s.publishers[p].phase.WaitObject? || s.publishers[p].phase.CheckObject? || s.publishers[p].phase.WriteObject?
    ensures OnlyMoves(s, ActOf(hash, s, p), p)
  {
    hide Drop, ManifestOf, RefOf;
  }

  lemma {:induction false} NewEntriesFit(hash: Hash, s: State, p: Pid)
    requires Inv(hash, s) && p in s.publishers
    ensures var t := ActOf(hash, s, p);
      && (forall v :: v in t.objects ==> hash(t.objects[v]) == v)
      && (forall path :: path in t.manifests && path !in s.manifests ==> ManifestFits(hash, t, path, t.manifests[path]))
      && (forall o :: o in t.outcomes && o !in s.outcomes ==> OutcomeFits(hash, t, o.0, o.1))
  {
    assert PublisherFits(hash, s, p, s.publishers[p]);
  }

  lemma {:induction false} StepKeepsInv(hash: Hash, s: State, e: Event)
    requires Inv(hash, s)
    ensures Inv(hash, Step(hash, s, e))
  {
    var t := Step(hash, s, e);
    StepKeeps(hash, s, e);
    StoredStays(hash, s, t);
    if e.Act? && e.pid in s.publishers {
      SelfFits(hash, s, e.pid);
      OthersStay(hash, s, e.pid);
      NewEntriesFit(hash, s, e.pid);
      forall q | q in t.publishers ensures PublisherFits(hash, t, q, t.publishers[q]) {
        if q != e.pid {
          OthersFit(hash, s, e.pid, q);
        }
      }
      hide PublisherFits, ManifestFits, OutcomeFits;
      assert forall o :: o in t.outcomes ==> OutcomeFits(hash, t, o.0, o.1);
      assert forall path :: path in t.manifests ==> ManifestFits(hash, t, path, t.manifests[path]);
    } else {
      forall q | q in t.publishers ensures PublisherFits(hash, t, q, t.publishers[q]) {
        assert q in s.publishers ==> PublisherFits(hash, s, q, s.publishers[q]);
      }
    }
  }

  lemma {:induction false} RunKeepsInv(hash: Hash, s: State, events: seq<Event>)
    requires Inv(hash, s)
    ensures Inv(hash, Run(hash, s, events)) && Keeps(s, Run(hash, s, events))
    decreases |events|
  {
    if events != [] {
      RunKeepsInv(hash, s, events[..|events| - 1]);
      StepKeepsInv(hash, Run(hash, s, events[..|events| - 1]), events[|events| - 1]);
      StepKeeps(hash, Run(hash, s, events[..|events| - 1]), events[|events| - 1]);
    }
  }

  lemma {:induction false} RunsCompose(hash: Hash, s: State, a: seq<Event>, b: seq<Event>)
    ensures Run(hash, Run(hash, s, a), b) == Run(hash, s, a + b)
    decreases |b|
  {
    if b == [] {
      assert a + b == a;
    } else {
      RunsCompose(hash, s, a, b[..|b| - 1]);
      assert (a + b)[..|a + b| - 1] == a + b[..|b| - 1];
    }
  }

  // ----- What publication promises -----------------------------------------------------------

  // A publication that runs alone ends within six steps of its process. It returns its
  // reference exactly when its content's hash holds no other content and its id is not
  // yet published, or published just so.
  lemma {:induction false} LonePublicationEnds(hash: Hash, events: seq<Event>, p: Pid, r: Request) returns (n: nat)
    requires var s := Run(hash, EMPTY, events);
      p !in s.publishers && hash(r.content) !in s.objectLeases && hash(r.id) !in s.manifestLeases
    ensures var s := Run(hash, EMPTY, events); var t := Run(hash, Step(hash, s, Start(p, r)), Acts(p, n));
      && n <= 6 && p !in t.publishers && t.objectLeases == s.objectLeases && t.manifestLeases == s.manifestLeases
      && (!SameContent(hash, s, r) ==> t.outcomes == s.outcomes + {(r, ObjectConflict)})
      && (SameContent(hash, s, r) && !SamePublication(hash, s, r) ==> t.outcomes == s.outcomes + {(r, ManifestConflict)})
      && (SameContent(hash, s, r) && SamePublication(hash, s, r) ==>
            t.outcomes == s.outcomes + {(r, Returned(Ref(r.id, DigestOf(hash, r.content), r.media)))})
  {
    var s := Run(hash, EMPTY, events);
    NoLeaseWithoutPublisher(hash, events, p);
    var started := Step(hash, s, Start(p, r));
    assert started == s.(publishers := s.publishers[p := Publisher(r, WaitObject)]);
    assert SameContent(hash, started, r) == SameContent(hash, s, r) && SamePublication(hash, started, r) == SamePublication(hash, s, r);
    hide *;
    n := PublicationAlone(hash, started, p);
    RefIsOf(hash, r);
  }

  lemma {:induction false} RefIsOf(hash: Hash, r: Request)
    ensures RefOf(ManifestOf(hash, r)) == Ref(r.id, DigestOf(hash, r.content), r.media)
  {
  }

  // p is nowhere in the leases.
  ghost predicate HoldsNothing(s: State, p: Pid) {
    && (forall k :: k in s.objectLeases ==> s.objectLeases[k] != p)
    && (forall k :: k in s.manifestLeases ==> s.manifestLeases[k] != p)
  }

  lemma {:induction false} SameLeasesHoldNothing(s: State, t: State, p: Pid)
    requires HoldsNothing(s, p) && t.objectLeases == s.objectLeases && t.manifestLeases == s.manifestLeases
    ensures HoldsNothing(t, p)
  {
  }

  // What a publication alone comes to.
  predicate SameContent(hash: Hash, s: State, r: Request) {
    hash(r.content) in s.objects ==> s.objects[hash(r.content)] == r.content
  }

  predicate SamePublication(hash: Hash, s: State, r: Request) {
    hash(r.id) in s.manifests ==> s.manifests[hash(r.id)] == ManifestOf(hash, r)
  }

  lemma {:induction false} PublicationAlone(hash: Hash, s: State, p: Pid) returns (n: nat)
    requires p in s.publishers && s.publishers[p].phase.WaitObject? && HoldsNothing(s, p)
    requires var r := s.publishers[p].request; hash(r.content) !in s.objectLeases && hash(r.id) !in s.manifestLeases
    ensures var t, r := Run(hash, s, Acts(p, n)), s.publishers[p].request;
      && n <= 6 && p !in t.publishers && t.objectLeases == s.objectLeases && t.manifestLeases == s.manifestLeases
      && (!SameContent(hash, s, r) ==> t.outcomes == s.outcomes + {(r, ObjectConflict)})
      && (SameContent(hash, s, r) && !SamePublication(hash, s, r) ==> t.outcomes == s.outcomes + {(r, ManifestConflict)})
      && (SameContent(hash, s, r) && SamePublication(hash, s, r) ==>
            t.outcomes == s.outcomes + {(r, Returned(RefOf(ManifestOf(hash, r))))})
  {
    hide *;
    var r := s.publishers[p].request;
    n := ObjectAlone(hash, s, p);
    if SameContent(hash, s, r) {
      var t := Run(hash, s, Acts(p, n));
      SameLeasesHoldNothing(s, t, p);
      SameManifests(hash, s, t, r);
      var m := ManifestAlone(hash, t, p);
      ActsCompose(hash, s, p, n, m);
      n := n + m;
    }
  }

  lemma {:induction false} SameManifests(hash: Hash, s: State, t: State, r: Request)
    requires t.manifests == s.manifests
    ensures SamePublication(hash, t, r) <==> SamePublication(hash, s, r)
  {
  }

  function Acts(p: Pid, n: nat): seq<Event> {
    seq(n, _ => Act(p))
  }

  lemma {:induction false} ActsCompose(hash: Hash, s: State, p: Pid, a: nat, b: nat)
    ensures Run(hash, s, Acts(p, a + b)) == Run(hash, Run(hash, s, Acts(p, a)), Acts(p, b))
  {
    RunsCompose(hash, s, Acts(p, a), Acts(p, b));
    assert Acts(p, a) + Acts(p, b) == Acts(p, a + b);
  }

  lemma {:induction false} ThreeActs(hash: Hash, s: State, p: Pid)
    ensures Run(hash, s, Acts(p, 2)) == Step(hash, Step(hash, s, Act(p)), Act(p))
    ensures Run(hash, s, Acts(p, 3)) == Step(hash, Step(hash, Step(hash, s, Act(p)), Act(p)), Act(p))
  {
    assert Run(hash, s, Acts(p, 0)) == s;
    assert Acts(p, 1)[..0] == Acts(p, 0) && Acts(p, 2)[..1] == Acts(p, 1) && Acts(p, 3)[..2] == Acts(p, 2);
    hide Step;
    assert Run(hash, s, Acts(p, 1)) == Step(hash, s, Act(p));
  }

  // A lease belongs to a publisher that is still there.
  lemma {:induction false} NoLeaseWithoutPublisher(hash: Hash, events: seq<Event>, p: Pid)
    requires p !in Run(hash, EMPTY, events).publishers
    ensures HoldsNothing(Run(hash, EMPTY, events), p)
  {
    HoldersStay(hash, events);
    hide Run;
  }

  ghost predicate HoldersArePublishers(s: State) {
    && (forall k :: k in s.objectLeases ==> s.objectLeases[k] in s.publishers)
    && (forall k :: k in s.manifestLeases ==> s.manifestLeases[k] in s.publishers)
  }

  lemma {:induction false} HoldersStay(hash: Hash, events: seq<Event>)
    ensures HoldersArePublishers(Run(hash, EMPTY, events))
    decreases |events|
  {
    if events != [] {
      HoldersStay(hash, events[..|events| - 1]);
      var s, e := Run(hash, EMPTY, events[..|events| - 1]), events[|events| - 1];
      StepKeepsHolders(hash, s, e);
    }
  }

  lemma {:induction false} StepKeepsHolders(hash: Hash, s: State, e: Event)
    requires HoldersArePublishers(s)
    ensures HoldersArePublishers(Step(hash, s, e))
  {
    match e
    case Act(p) =>
      if p in s.publishers {
        LeasesMove(hash, s, p);
      }
    case _ =>
  }

  // A publisher takes a free lease or frees its own, and frees all when it ends.
  lemma {:induction false} LeasesMove(hash: Hash, s: State, p: Pid)
    requires p in s.publishers
    ensures var t := ActOf(hash, s, p);
      && (forall k :: k in t.objectLeases ==> t.objectLeases[k] == p || (k in s.objectLeases && t.objectLeases[k] == s.objectLeases[k]))
      && (forall k :: k in t.manifestLeases ==> t.manifestLeases[k] == p || (k in s.manifestLeases && t.manifestLeases[k] == s.manifestLeases[k]))
      && (p !in t.publishers ==> HoldsNothing(t, p))
      && (forall q :: q in s.publishers && q != p ==> q in t.publishers)
  {
    hide ManifestOf, RefOf;
    if s.publishers[p].phase.WaitObject? || s.publishers[p].phase.CheckObject? || s.publishers[p].phase.WriteObject? {
      LeasesMoveAtObject(hash, s, p);
    }
  }

  lemma {:induction false} LeasesMoveAtObject(hash: Hash, s: State, p: Pid)
    requires p in s.publishers
    requires s.publishers[p].phase.WaitObject? || s.publishers[p].phase.CheckObject? || s.publishers[p].phase.WriteObject?
    ensures var t := ActOf(hash, s, p);
      && (forall k :: k in t.objectLeases ==> t.objectLeases[k] == p || (k in s.objectLeases && t.objectLeases[k] == s.objectLeases[k]))
      && (forall k :: k in t.manifestLeases ==> t.manifestLeases[k] == p || (k in s.manifestLeases && t.manifestLeases[k] == s.manifestLeases[k]))
      && (p !in t.publishers ==> HoldsNothing(t, p))
      && (forall q :: q in s.publishers && q != p ==> q in t.publishers)
  {
    hide ManifestOf, RefOf;
  }

  lemma {:induction false} DropsNothing(leases: map<int, Pid>, p: Pid)
    requires forall k :: k in leases ==> leases[k] != p
    ensures Drop(leases, p) == leases
  {
    var left := Drop(leases, p);
    assert forall k :: k in left <==> k in leases;
    assert forall k :: k in left ==> left[k] == leases[k];
  }

  lemma {:induction false} DropsItsOwn(leases: map<int, Pid>, p: Pid, own: int)
    requires own !in leases && forall k :: k in leases ==> leases[k] != p
    ensures Drop(leases[own := p], p) == leases
  {
    var left := Drop(leases[own := p], p);
    assert forall k :: k in left <==> k in leases;
    assert forall k :: k in left ==> left[k] == leases[k];
  }

  // A publisher alone at the object, then at the manifest.
  lemma {:induction false} ObjectAlone(hash: Hash, s: State, p: Pid) returns (n: nat)
    requires p in s.publishers && s.publishers[p].phase.WaitObject? && HoldsNothing(s, p)
    requires hash(s.publishers[p].request.content) !in s.objectLeases
    ensures var t, r := Run(hash, s, Acts(p, n)), s.publishers[p].request;
      && n <= 3 && t.manifests == s.manifests && t.manifestLeases == s.manifestLeases && t.objectLeases == s.objectLeases
      && if SameContent(hash, s, r)
         then p in t.publishers && t.publishers[p] == Publisher(r, WaitManifest) && t.outcomes == s.outcomes
         else p !in t.publishers && t.outcomes == s.outcomes + {(r, ObjectConflict)}
  {
    DropsItsOwn(s.objectLeases, p, hash(s.publishers[p].request.content));
    DropsNothing(s.manifestLeases, p);
    var s1 := Step(hash, s, Act(p));
    var r := s.publishers[p].request;
    assert s1 == s.(publishers := s.publishers[p := Publisher(r, CheckObject)], objectLeases := s.objectLeases[hash(r.content) := p]);
    ThreeActs(hash, s, p);
    n := if hash(r.content) in s.objects then 2 else 3;
    hide Run, Drop, HoldsNothing;
    ObjectChecked(hash, s1, p);
  }

  lemma {:induction false} ObjectChecked(hash: Hash, s: State, p: Pid)
    requires p in s.publishers && s.publishers[p].phase.CheckObject?
    ensures var r := s.publishers[p].request;
      var known := hash(r.content) in s.objects;
      var t := if known then Step(hash, s, Act(p)) else Step(hash, Step(hash, s, Act(p)), Act(p));
      && t.manifests == s.manifests && t.objectLeases == Drop(s.objectLeases, p)
      && if known ==> s.objects[hash(r.content)] == r.content
         then p in t.publishers && t.publishers[p] == Publisher(r, WaitManifest) && t.outcomes == s.outcomes && t.manifestLeases == s.manifestLeases
         else p !in t.publishers && t.outcomes == s.outcomes + {(r, ObjectConflict)} && t.manifestLeases == Drop(s.manifestLeases, p)
  {
    hide Drop;
    var r := s.publishers[p].request;
    if hash(r.content) !in s.objects {
      assert Step(hash, s, Act(p)) == s.(publishers := s.publishers[p := Publisher(r, WriteObject)]);
    }
  }

  lemma {:induction false} ManifestAlone(hash: Hash, s: State, p: Pid) returns (n: nat)
    requires p in s.publishers && s.publishers[p].phase.WaitManifest? && HoldsNothing(s, p)
    requires hash(s.publishers[p].request.id) !in s.manifestLeases
    ensures var t, r := Run(hash, s, Acts(p, n)), s.publishers[p].request;
      && n <= 3 && p !in t.publishers && t.objectLeases == s.objectLeases && t.manifestLeases == s.manifestLeases
      && t.outcomes == s.outcomes + {(r, if SamePublication(hash, s, r) then Returned(RefOf(ManifestOf(hash, r))) else ManifestConflict)}
  {
    DropsNothing(s.objectLeases, p);
    DropsItsOwn(s.manifestLeases, p, hash(s.publishers[p].request.id));
    var s1 := Step(hash, s, Act(p));
    var r := s.publishers[p].request;
    assert s1 == s.(publishers := s.publishers[p := Publisher(r, CheckManifest)], manifestLeases := s.manifestLeases[hash(r.id) := p]);
    ThreeActs(hash, s, p);
    n := if hash(r.id) in s.manifests then 2 else 3;
    hide Run, Drop, HoldsNothing, ManifestOf, RefOf;
    ManifestChecked(hash, s1, p);
  }

  lemma {:induction false} ManifestChecked(hash: Hash, s: State, p: Pid)
    requires p in s.publishers && s.publishers[p].phase.CheckManifest?
    ensures var r := s.publishers[p].request;
      var known := hash(r.id) in s.manifests;
      var t := if known then Step(hash, s, Act(p)) else Step(hash, Step(hash, s, Act(p)), Act(p));
      && p !in t.publishers && t.objectLeases == Drop(s.objectLeases, p) && t.manifestLeases == Drop(s.manifestLeases, p)
      && t.outcomes == s.outcomes + {(r, if known && s.manifests[hash(r.id)] != ManifestOf(hash, r)
                                         then ManifestConflict else Returned(RefOf(ManifestOf(hash, r))))}
  {
    hide Drop;
    var r := s.publishers[p].request;
    if hash(r.id) !in s.manifests {
      assert Step(hash, s, Act(p)) == s.(publishers := s.publishers[p := Publisher(r, WriteManifest)]);
    }
  }

  // Once a publication has returned, every later state reads back exactly its bytes
  // and finds exactly its reference, whoever publishes or crashes in between.
  lemma {:induction false} PublishedIsReadForever(hash: Hash, before: seq<Event>, later: seq<Event>, r: Request, ref: Ref)
    requires (r, Returned(ref)) in Run(hash, EMPTY, before).outcomes
    ensures var s := Run(hash, EMPTY, before + later);
      && ReadBytes(hash, s, ref) == Ok(r.content)
      && Find(hash, s, r.id) == Ok(Some(ref))
      && ref == Ref(r.id, DigestOf(hash, r.content), r.media)
  {
    RunKeepsInv(hash, EMPTY, before);
    RunKeepsInv(hash, Run(hash, EMPTY, before), later);
    RunsCompose(hash, EMPTY, before, later);
    var s := Run(hash, EMPTY, before + later);
    assert (r, Returned(ref)) in s.outcomes;
    assert OutcomeFits(hash, s, (r, Returned(ref)).0, (r, Returned(ref)).1);
  }

  // In every reachable state each manifest names an existing object of its digest,
  // and every stored object stands under its own hash.
  lemma {:induction false} ManifestsNameObjects(hash: Hash, events: seq<Event>)
    ensures var s := Run(hash, EMPTY, events);
      && (forall path :: path in s.manifests ==>
            && s.manifests[path].digest.value in s.objects
            && DigestOf(hash, s.objects[s.manifests[path].digest.value]) == s.manifests[path].digest
            && ReadBytes(hash, s, RefOf(s.manifests[path])).Ok?)
      && (forall v :: v in s.objects ==> hash(s.objects[v]) == v)
  {
    RunKeepsInv(hash, EMPTY, events);
    var s := Run(hash, EMPTY, events);
    forall path | path in s.manifests ensures ReadBytes(hash, s, RefOf(s.manifests[path])).Ok? && ManifestFits(hash, s, path, s.manifests[path]) {
      assert ManifestFits(hash, s, path, s.manifests[path]);
    }
  }

  // An id is published once: all its successful publications agree, and one that
  // disagrees ends in a conflict.
  lemma {:induction false} PublicationsAgree(hash: Hash, events: seq<Event>, a: Request, b: Request, x: Ref, y: Ref)
    requires (a, Returned(x)) in Run(hash, EMPTY, events).outcomes && (b, Returned(y)) in Run(hash, EMPTY, events).outcomes
    requires a.id == b.id
    ensures a == b && x == y
  {
    RunKeepsInv(hash, EMPTY, events);
    var s := Run(hash, EMPTY, events);
    assert OutcomeFits(hash, s, (a, Returned(x)).0, (a, Returned(x)).1);
    assert OutcomeFits(hash, s, (b, Returned(y)).0, (b, Returned(y)).1);
  }

  // A conflict has a cause: an object conflict means two contents share a hash; a
  // manifest conflict means the id, or another of the same hash, is already published
  // differently.
  lemma {:induction false} ConflictsHaveCauses(hash: Hash, events: seq<Event>, r: Request, outcome: Outcome)
    requires (r, outcome) in Run(hash, EMPTY, events).outcomes
    ensures outcome.ObjectConflict? ==> exists other :: other != r.content && hash(other) == hash(r.content)
    ensures outcome.ManifestConflict? ==>
      var s := Run(hash, EMPTY, events);
      hash(r.id) in s.manifests && var m := s.manifests[hash(r.id)];
        (m.id != r.id && hash(m.id) == hash(r.id)) || (m.id == r.id && m != ManifestOf(hash, r))
  {
    RunKeepsInv(hash, EMPTY, events);
    var s := Run(hash, EMPTY, events);
    assert OutcomeFits(hash, s, (r, outcome).0, (r, outcome).1);
    if outcome.ObjectConflict? {
      assert hash(s.objects[hash(r.content)]) == hash(r.content);
    }
    if outcome.ManifestConflict? {
      assert ManifestFits(hash, s, hash(r.id), s.manifests[hash(r.id)]);
    }
  }

  // ----- What readers answer -------------------------------------------------------------------

  // In every directory, damaged ones included: content is only handed out for the very
  // reference its manifest holds, and only if it has the digest that reference names.
  lemma {:induction false} ReadsAreVerified(hash: Hash, s: State, ref: Ref)
    ensures var m := hash(ref.id); var r := ReadBytes(hash, s, ref);
      (r.Ok? <==>
        && m in s.manifests && s.manifests[m].id == ref.id && s.manifests[m].digest == ref.digest && s.manifests[m].media == ref.media
        && ref.digest.value in s.objects
        && hash(s.objects[ref.digest.value]) == ref.digest.value && |s.objects[ref.digest.value]| == ref.digest.size)
      && (r.Ok? ==> r.value == s.objects[ref.digest.value])
      && (r == Err(Missing) ==> m !in s.manifests || ref.digest.value !in s.objects)
  {
  }

  // After any run an id is absent exactly when nothing stands at its place, and fails
  // exactly when another id of the same hash stands there; otherwise it is found as its own
  // reference, with content that reads back.
  lemma {:induction false} FindIsExact(hash: Hash, events: seq<Event>, id: string)
    ensures var s := Run(hash, EMPTY, events); var found := Find(hash, s, id);
      && (found == Ok(None) <==> hash(id) !in s.manifests)
      && (found.Err? <==> hash(id) in s.manifests && s.manifests[hash(id)].id != id)
      && (found.Ok? && found.value.Some? ==>
            && found.value.value.id == id
            && ReadBytes(hash, s, found.value.value) == Ok(s.objects[found.value.value.digest.value]))
  {
    RunKeepsInv(hash, EMPTY, events);
    var s := Run(hash, EMPTY, events);
    if hash(id) in s.manifests {
      assert ManifestFits(hash, s, hash(id), s.manifests[hash(id)]);
    }
  }

  // The publication was asked for.
  ghost predicate Asked(events: seq<Event>, r: Request) {
    exists p :: Start(p, r) in events
  }

  // A manifest is that of a publication asked for.
  ghost predicate IsAskedManifest(hash: Hash, events: seq<Event>, m: Manifest) {
    exists r :: Asked(events, r) && m == ManifestOf(hash, r)
  }

  ghost predicate AllAsked(hash: Hash, events: seq<Event>, s: State) {
    && (forall p :: p in s.publishers ==> Asked(events, s.publishers[p].request))
    && (forall o :: o in s.outcomes ==> Asked(events, o.0))
    && (forall path :: path in s.manifests ==> IsAskedManifest(hash, events, s.manifests[path]))
  }

  // Nothing is published that nobody asked for, crashes or not.
  lemma {:induction false} PublishedWasAsked(hash: Hash, events: seq<Event>)
    ensures AllAsked(hash, events, Run(hash, EMPTY, events))
  {
    if events != [] {
      var n: nat := |events| - 1;
      var before, e := events[..n], events[n];
      PublishedWasAsked(hash, before);
      assert events == before + [e];
      var s := Run(hash, EMPTY, before);
      hide AllAsked, Step;
      StillAsked(hash, before, e, s);
      if e.Act? && e.pid in s.publishers {
        ActAsks(hash, events, s, e);
      } else {
        OthersAsk(hash, events, s, e);
      }
    }
  }

  lemma {:induction false} StillAsked(hash: Hash, events: seq<Event>, e: Event, s: State)
    requires AllAsked(hash, events, s)
    ensures AllAsked(hash, events + [e], s) && (e.Start? ==> Asked(events + [e], e.request))
  {
    AskedStays(hash, events, e);
    assert (events + [e])[|events|] == e;
    assert e.Start? ==> Asked(events + [e], e.request);
    hide Asked, IsAskedManifest;
  }

  lemma {:induction false} OthersAsk(hash: Hash, events: seq<Event>, s: State, e: Event)
    requires AllAsked(hash, events, s) && !(e.Act? && e.pid in s.publishers) && (e.Start? ==> Asked(events, e.request))
    ensures AllAsked(hash, events, Step(hash, s, e))
  {
    hide Asked, IsAskedManifest, Drop;
  }

  lemma {:induction false} ActAsks(hash: Hash, events: seq<Event>, s: State, e: Event)
    requires AllAsked(hash, events, s) && e.Act? && e.pid in s.publishers
    ensures AllAsked(hash, events, Step(hash, s, e))
  {
    RequestsStay(hash, s, e.pid);
    OwnOutcomeOnly(hash, s, e.pid);
    OwnManifestOnly(hash, s, e.pid);
    AskedManifest(hash, events, s.publishers[e.pid].request);
    hide ActOf, ManifestOf, Asked, IsAskedManifest;
  }

  lemma {:induction false} AskedStays(hash: Hash, events: seq<Event>, e: Event)
    ensures forall r :: Asked(events, r) ==> Asked(events + [e], r)
    ensures forall m :: IsAskedManifest(hash, events, m) ==> IsAskedManifest(hash, events + [e], m)
  {
    forall r | Asked(events, r) ensures Asked(events + [e], r) {
      var p :| Start(p, r) in events;
      assert Start(p, r) in events + [e];
    }
  }

  lemma {:induction false} AskedManifest(hash: Hash, events: seq<Event>, r: Request)
    requires Asked(events, r)
    ensures IsAskedManifest(hash, events, ManifestOf(hash, r))
  {
  }

  // A step of a publisher keeps everyone's request, and adds nothing but its own.
  lemma {:induction false} RequestsStay(hash: Hash, s: State, p: Pid)
    requires p in s.publishers
    ensures forall q :: q in ActOf(hash, s, p).publishers ==>
      q in s.publishers && ActOf(hash, s, p).publishers[q].request == s.publishers[q].request
  {
    hide ActOf;
    OthersStay(hash, s, p);
    OwnRequestStays(hash, s, p);
  }

  lemma {:induction false} OwnRequestStays(hash: Hash, s: State, p: Pid)
    requires p in s.publishers
    ensures var t := ActOf(hash, s, p); p in t.publishers ==> t.publishers[p].request == s.publishers[p].request
  {
    hide ManifestOf, RefOf, Drop, Finish, Goto;
    GotoKeepsRequest(s, p);
    FinishRemoves(s, p);
    if s.publishers[p].phase.WriteManifest? {
      FinishRemoves(s.(manifests := s.manifests[hash(s.publishers[p].request.id) := ManifestOf(hash, s.publishers[p].request)]), p);
    }
  }

  lemma {:induction false} GotoKeepsRequest(s: State, p: Pid)
    requires p in s.publishers
    ensures forall phase :: p in Goto(s, p, phase).publishers && Goto(s, p, phase).publishers[p].request == s.publishers[p].request
  {
  }

  lemma {:induction false} FinishRemoves(s: State, p: Pid)
    requires p in s.publishers
    ensures forall outcome :: p !in Finish(s, p, outcome).publishers
  {
  }

  lemma {:induction false} OwnOutcomeOnly(hash: Hash, s: State, p: Pid)
    requires p in s.publishers
    ensures forall o :: o in ActOf(hash, s, p).outcomes ==> o in s.outcomes || o.0 == s.publishers[p].request
  {
    hide ManifestOf, RefOf, Drop;
  }

  lemma {:induction false} OwnManifestOnly(hash: Hash, s: State, p: Pid)
    requires p in s.publishers
    ensures var m := ManifestOf(hash, s.publishers[p].request);
      ActOf(hash, s, p).manifests == s.manifests || ActOf(hash, s, p).manifests == s.manifests[hash(s.publishers[p].request.id) := m]
  {
    hide ManifestOf, RefOf, Drop, Finish, Goto;
    MovingKeepsManifests(s, p);
    if s.publishers[p].phase.WriteManifest? {
      MovingKeepsManifests(s.(manifests := s.manifests[hash(s.publishers[p].request.id) := ManifestOf(hash, s.publishers[p].request)]), p);
    }
  }

  lemma {:induction false} MovingKeepsManifests(s: State, p: Pid)
    requires p in s.publishers
    ensures forall phase :: Goto(s, p, phase).manifests == s.manifests
    ensures forall outcome :: Finish(s, p, outcome).manifests == s.manifests
  {
  }
}
