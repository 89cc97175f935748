// The bookmark-to-heading alignment: a memoised dynamic program over
// (outline index, last heading used), which keeps at most two optimal paths per
// subproblem so that the caller can tell a unique optimum from a tie.
module OutlineAlignment {
  import opened Bookmarks
  import opened Common
  import opened MarkdownHeadings

  // candidates[o] lists the headings whose title agrees with outline node o.
  // evidence(o, h) is the body evidence for placing node o at heading h.
  datatype Problem = Problem(candidates: seq<seq<nat>>, evidence: (nat, nat) -> nat)

  type Path = seq<(nat, nat)>

  datatype Score = Score(matches: nat, evidence: nat)

  type Solution = (Score, seq<Path>)

  // Tuples compare lexicographically.
  predicate AtMost(a: Score, b: Score) {
    a.matches < b.matches || (a.matches == b.matches && a.evidence <= b.evidence)
  }

  // ----- What the program is for ------------------------------------------

  function TotalEvidence(pb: Problem, p: Path): nat {
    if p == [] then 0 else pb.evidence(p[0].0, p[0].1) + TotalEvidence(pb, p[1..])
  }

  function PathScore(pb: Problem, p: Path): Score {
    Score(|p|, TotalEvidence(pb, p))
  }

  // A partial matching of outline nodes to candidate headings that is strictly
  // increasing on both sides.
  ghost predicate IncreasingMatching(pb: Problem, p: Path) {
    && (forall k :: 0 <= k < |p| ==> p[k].0 < |pb.candidates| && p[k].1 in pb.candidates[p[k].0])
    && (forall a, b :: 0 <= a < b < |p| ==> p[a].0 < p[b].0 && p[a].1 < p[b].1)
  }

  ghost predicate Optimal(pb: Problem, p: Path) {
    && IncreasingMatching(pb, p)
    && forall q :: IncreasingMatching(pb, q) ==> AtMost(PathScore(pb, q), PathScore(pb, p))
  }

  ghost predicate OneOptimum(pb: Problem) {
    exists p :: Optimal(pb, p) && forall q :: Optimal(pb, q) ==> q == p
  }

  ghost predicate TiedOptima(pb: Problem) {
    exists p, q :: Optimal(pb, p) && Optimal(pb, q) && p != q
  }

  // An optimum matches the most nodes, and among those that do it has the most evidence.
  lemma {:induction false} OptimumMatchesMost(pb: Problem, p: Path)
    ensures Optimal(pb, p) <==>
      && IncreasingMatching(pb, p)
      && forall q :: IncreasingMatching(pb, q) ==>
           |q| <= |p| && (|q| == |p| ==> TotalEvidence(pb, q) <= TotalEvidence(pb, p))
  {
    hide IncreasingMatching, TotalEvidence;
  }

  // The evidence of a path is the sum over its pairs.
  lemma {:induction false} EvidenceIsASum(pb: Problem, p: Path, q: Path)
    ensures TotalEvidence(pb, p + q) == TotalEvidence(pb, p) + TotalEvidence(pb, q)
    ensures forall o, h :: TotalEvidence(pb, [(o, h)]) == pb.evidence(o, h)
  {
    if p == [] {
      assert p + q == q;
    } else {
      EvidenceIsASum(pb, p[1..], q);
      assert (p + q)[1..] == p[1..] + q;
    }
  }

  // ----- The recursion ----------------------------------------------------

  // Each result pairs a score with the paths that attain it; skipping node i
  // comes first, then its candidates in order.
  function Solve(pb: Problem, i: nat, prev: int): (s: Solution)
    requires i <= |pb.candidates|
    ensures 1 <= |s.1| <= 2
    decreases |pb.candidates| - i, 2, 0
  {
    if i == |pb.candidates| then (Score(0, 0), [[]])
    else
      var options := Options(pb, i, prev, |pb.candidates[i]|);
      var best := BestScore(options);
      KeepTwoProperties(options, best, |options|);
      (best, KeepTwo(options, best, |options|))
  }

  // The options offered by skipping node i and by its first k candidates.
  function Options(pb: Problem, i: nat, prev: int, k: nat): (options: seq<(Score, Path)>)
    requires i < |pb.candidates| && k <= |pb.candidates[i]|
    ensures |options| > 0
    decreases |pb.candidates| - i, 1, k
  {
    if k == 0 then
      Skipped(Solve(pb, i + 1, prev))
    else
      Options(pb, i, prev, k - 1) +
      var c := pb.candidates[i][k - 1];
      if c <= prev then [] else Taken(pb, i, c, Solve(pb, i + 1, c))
  }

  function Skipped(s: Solution): (options: seq<(Score, Path)>)
    ensures |options| == |s.1|
    ensures forall j :: 0 <= j < |s.1| ==> options[j] == (s.0, s.1[j])
  {
    assert forall j :: 0 <= j < |s.1| ==> [] + s.1[j] == s.1[j];
    Offers(s.0, [], s.1)
  }

  function Taken(pb: Problem, i: nat, c: nat, s: Solution): (options: seq<(Score, Path)>)
    ensures |options| == |s.1|
  {
    Offers(Score(s.0.matches + 1, s.0.evidence + pb.evidence(i, c)), [(i, c)], s.1)
  }

  // Each path, started with the given pairs, at the given score.
  function Offers(score: Score, first: Path, paths: seq<Path>): (options: seq<(Score, Path)>)
    ensures |options| == |paths|
    ensures forall j :: 0 <= j < |paths| ==> options[j] == (score, first + paths[j])
  {
    seq(|paths|, j requires 0 <= j < |paths| => (score, first + paths[j]))
  }

  function BestScore(options: seq<(Score, Path)>): (best: Score)
    requires |options| > 0
    ensures exists j :: 0 <= j < |options| && options[j].0 == best
    ensures forall j :: 0 <= j < |options| ==> AtMost(options[j].0, best)
  {
    var last := options[|options| - 1].0;
    if |options| == 1 then last
    else
      var rest := BestScore(options[..|options| - 1]);
      assert forall j :: 0 <= j < |options| - 1 ==> options[..|options| - 1][j] == options[j];
      if AtMost(last, rest) then rest else last
  }

  // The first two distinct paths among the first k options that attain best.
  function KeepTwo(options: seq<(Score, Path)>, best: Score, k: nat): seq<Path>
    requires k <= |options|
  {
    if k == 0 then []
    else
      var kept := KeepTwo(options, best, k - 1);
      if |kept| < 2 && options[k - 1].0 == best && options[k - 1].1 !in kept
      then kept + [options[k - 1].1] else kept
  }

  lemma {:induction false} KeepTwoProperties(options: seq<(Score, Path)>, best: Score, k: nat)
    requires k <= |options|
    ensures var kept := KeepTwo(options, best, k);
      && |kept| <= 2
      && (|kept| == 2 ==> kept[0] != kept[1])
      && (forall p :: p in kept ==> exists j :: 0 <= j < k && options[j] == (best, p))
      && (|kept| < 2 ==> forall j :: 0 <= j < k && options[j].0 == best ==> options[j].1 in kept)
      && (|kept| == 0 ==> forall j :: 0 <= j < k ==> options[j].0 != best)
  {
    if k > 0 {
      KeepTwoProperties(options, best, k - 1);
      var kept := KeepTwo(options, best, k - 1);
      if |kept| < 2 && options[k - 1].0 == best && options[k - 1].1 !in kept {
        assert options[k - 1] == (best, options[k - 1].1);
      }
    }
  }

  // ----- Every subproblem is solved ---------------------------------------

  // A matching that uses only nodes from i on and headings after prev.
  ghost predicate MatchingFrom(pb: Problem, i: nat, prev: int, p: Path)
    decreases |p|
  {
    p != [] ==>
      && i <= p[0].0 < |pb.candidates| && prev < p[0].1 && p[0].1 in pb.candidates[p[0].0]
      && MatchingFrom(pb, p[0].0 + 1, p[0].1, p[1..])
  }

  // The score is the maximum, the one or two paths attain it, and a single path
  // is the only one that does.
  ghost predicate Solves(pb: Problem, i: nat, prev: int, s: Solution) {
    && 1 <= |s.1| <= 2
    && (forall p :: p in s.1 ==> MatchingFrom(pb, i, prev, p) && PathScore(pb, p) == s.0)
    && (forall p :: MatchingFrom(pb, i, prev, p) ==> AtMost(PathScore(pb, p), s.0))
    && (|s.1| == 2 ==> s.1[0] != s.1[1])
    && (|s.1| == 1 ==> forall p :: MatchingFrom(pb, i, prev, p) && PathScore(pb, p) == s.0 ==> p == s.1[0])
  }

  // Option (score, path) describes a matching, and its score is right.
  ghost predicate SoundOption(pb: Problem, i: nat, prev: int, option: (Score, Path)) {
    MatchingFrom(pb, i, prev, option.1) && PathScore(pb, option.1) == option.0
  }

  lemma {:induction false} OptionsAreSound(pb: Problem, i: nat, prev: int, k: nat)
    requires i < |pb.candidates| && k <= |pb.candidates[i]|
    ensures forall o :: o in Options(pb, i, prev, k) ==> SoundOption(pb, i, prev, o)
    decreases |pb.candidates| - i, 1, k
  {
    OptionsUnfold(pb, i, prev, k);
    hide Options, Solve, SoundOption, Skipped, Taken;
    if k == 0 {
      SolveIsCorrect(pb, i + 1, prev);
      SkippedIsSound(pb, i, prev, Solve(pb, i + 1, prev));
    } else {
      OptionsAreSound(pb, i, prev, k - 1);
      var c := pb.candidates[i][k - 1];
      if c > prev {
        SolveIsCorrect(pb, i + 1, c);
        TakenIsSound(pb, i, prev, c, Solve(pb, i + 1, c));
      }
    }
  }

  lemma {:induction false} OptionsUnfold(pb: Problem, i: nat, prev: int, k: nat)
    requires i < |pb.candidates| && k <= |pb.candidates[i]|
    ensures k == 0 ==> Options(pb, i, prev, k) == Skipped(Solve(pb, i + 1, prev))
    ensures k > 0 ==>
      var c := pb.candidates[i][k - 1];
      Options(pb, i, prev, k) == Options(pb, i, prev, k - 1) + if c <= prev then [] else Taken(pb, i, c, Solve(pb, i + 1, c))
  {
    hide Solve, Skipped, Taken;
  }

  lemma {:induction false} SkippedIsSound(pb: Problem, i: nat, prev: int, s: Solution)
    requires Solves(pb, i + 1, prev, s)
    ensures forall o :: o in Skipped(s) ==> SoundOption(pb, i, prev, o)
  {
    forall p | MatchingFrom(pb, i + 1, prev, p) ensures MatchingFrom(pb, i, prev, p) {}
  }

  lemma {:induction false} TakenIsSound(pb: Problem, i: nat, prev: int, c: nat, s: Solution)
    requires i < |pb.candidates| && c in pb.candidates[i] && c > prev && Solves(pb, i + 1, c, s)
    ensures forall o :: o in Taken(pb, i, c, s) ==> SoundOption(pb, i, prev, o)
  {
    forall j | 0 <= j < |s.1| ensures SoundOption(pb, i, prev, Taken(pb, i, c, s)[j]) {
      var p := [(i, c)] + s.1[j];
      assert p[1..] == s.1[j] && s.1[j] in s.1;
    }
  }

  // What the options owe a matching p: they offer something at least as good,
  // and if they offer nothing better, then p itself or two rivals of equal score.
  ghost predicate Represented(pb: Problem, options: seq<(Score, Path)>, p: Path) {
    var s := PathScore(pb, p);
    || (exists o :: o in options && AtMost(s, o.0) && o.0 != s)
    || (s, p) in options
    || (exists x, y :: (s, x) in options && (s, y) in options && x != y)
  }

  lemma {:induction false} SkippedRepresents(pb: Problem, i: nat, prev: int, p: Path, s: Solution)
    requires Solves(pb, i, prev, s) && MatchingFrom(pb, i, prev, p)
    ensures Represented(pb, Skipped(s), p)
  {
    var options := Skipped(s);
    var first, last := options[0], options[|s.1| - 1];
    assert first == (s.0, s.1[0]) && first in options;
    assert last == (s.0, s.1[|s.1| - 1]) && last in options;
  }

  lemma {:induction false} TakenRepresents(pb: Problem, i: nat, c: nat, p: Path, s: Solution)
    requires Solves(pb, i + 1, c, s)
    requires p != [] && p[0] == (i, c) && MatchingFrom(pb, i + 1, c, p[1..])
    ensures Represented(pb, Taken(pb, i, c, s), p)
  {
    var options := Taken(pb, i, c, s);
    var score := Score(s.0.matches + 1, s.0.evidence + pb.evidence(i, c));
    var first, last := options[0], options[|s.1| - 1];
    assert first == (score, [(i, c)] + s.1[0]) && first in options;
    assert last == (score, [(i, c)] + s.1[|s.1| - 1]) && last in options;
    assert p == [(i, c)] + p[1..];
    if |s.1| == 2 {
      assert first.1[1..] == s.1[0] && last.1[1..] == s.1[1];
    }
  }

  lemma {:induction false} RepresentedByMore(pb: Problem, some: seq<(Score, Path)>, all: seq<(Score, Path)>, p: Path)
    requires Represented(pb, some, p) && forall o :: o in some ==> o in all
    ensures Represented(pb, all, p)
  {
  }

  lemma {:induction false} OptionsAreComplete(pb: Problem, i: nat, prev: int, p: Path)
    requires i < |pb.candidates| && MatchingFrom(pb, i, prev, p)
    ensures Represented(pb, Options(pb, i, prev, |pb.candidates[i]|), p)
    decreases |pb.candidates| - i, 1, 0
  {
    hide Options, Solve, Skipped, Taken, Represented, Solves;
    var options := Options(pb, i, prev, |pb.candidates[i]|);
    if p == [] || p[0].0 > i {
      var s := Solve(pb, i + 1, prev);
      SolveIsCorrect(pb, i + 1, prev);
      SkippedRepresents(pb, i + 1, prev, p, s);
      SkippedIsOffered(pb, i, prev);
      RepresentedByMore(pb, Skipped(s), options, p);
    } else {
      var c := p[0].1;
      var k :| 0 <= k < |pb.candidates[i]| && pb.candidates[i][k] == c;
      var s := Solve(pb, i + 1, c);
      SolveIsCorrect(pb, i + 1, c);
      TakenRepresents(pb, i, c, p, s);
      TakenIsOffered(pb, i, prev, k);
      RepresentedByMore(pb, Taken(pb, i, c, s), options, p);
    }
  }

  lemma {:induction false} SkippedIsOffered(pb: Problem, i: nat, prev: int)
    requires i < |pb.candidates|
    ensures forall o :: o in Skipped(Solve(pb, i + 1, prev)) ==> o in Options(pb, i, prev, |pb.candidates[i]|)
  {
    OptionsUnfold(pb, i, prev, 0);
    hide Solve, Options;
    forall o | o in Skipped(Solve(pb, i + 1, prev)) ensures o in Options(pb, i, prev, |pb.candidates[i]|) {
      OptionsGrow(pb, i, prev, 0, |pb.candidates[i]|, o);
    }
  }

  lemma {:induction false} TakenIsOffered(pb: Problem, i: nat, prev: int, k: nat)
    requires i < |pb.candidates| && k < |pb.candidates[i]| && pb.candidates[i][k] > prev
    ensures var c := pb.candidates[i][k];
      forall o :: o in Taken(pb, i, c, Solve(pb, i + 1, c)) ==> o in Options(pb, i, prev, |pb.candidates[i]|)
  {
    OptionsUnfold(pb, i, prev, k + 1);
    hide Solve, Options;
    var c := pb.candidates[i][k];
    forall o | o in Taken(pb, i, c, Solve(pb, i + 1, c)) ensures o in Options(pb, i, prev, |pb.candidates[i]|) {
      OptionsGrow(pb, i, prev, k + 1, |pb.candidates[i]|, o);
    }
  }

  lemma {:induction false} OptionsGrow(pb: Problem, i: nat, prev: int, k: nat, n: nat, o: (Score, Path))
    requires i < |pb.candidates| && k <= n <= |pb.candidates[i]| && o in Options(pb, i, prev, k)
    ensures o in Options(pb, i, prev, n)
    decreases n
  {
    hide *;
    if k < n {
      OptionsGrow(pb, i, prev, k, n - 1, o);
      OptionsUnfold(pb, i, prev, n);
    }
  }

  // Keeping two paths per subproblem loses nothing.
  lemma {:induction false} SolveIsCorrect(pb: Problem, i: nat, prev: int)
    requires i <= |pb.candidates|
    ensures Solves(pb, i, prev, Solve(pb, i, prev))
    decreases |pb.candidates| - i, 2, 0
  {
    if i < |pb.candidates| {
      var options := Options(pb, i, prev, |pb.candidates[i]|);
      OptionsAreSound(pb, i, prev, |pb.candidates[i]|);
      forall p | MatchingFrom(pb, i, prev, p) ensures Represented(pb, options, p) {
        OptionsAreComplete(pb, i, prev, p);
      }
      BestOptionsSolve(pb, i, prev, options);
    }
  }

  lemma {:induction false} BestOptionsSolve(pb: Problem, i: nat, prev: int, options: seq<(Score, Path)>)
    requires |options| > 0 && forall o :: o in options ==> SoundOption(pb, i, prev, o)
    requires forall p :: MatchingFrom(pb, i, prev, p) ==> Represented(pb, options, p)
    ensures var best := BestScore(options);
      Solves(pb, i, prev, (best, KeepTwo(options, best, |options|)))
  {
    var best := BestScore(options);
    var paths := KeepTwo(options, best, |options|);
    KeepTwoProperties(options, best, |options|);
    forall p | p in paths ensures SoundOption(pb, i, prev, (best, p)) {
      var j :| 0 <= j < |options| && options[j] == (best, p);
      assert options[j] in options;
    }
    hide KeepTwo, BestScore, Represented, MatchingFrom;
    forall p | MatchingFrom(pb, i, prev, p)
      ensures AtMost(PathScore(pb, p), best)
      ensures PathScore(pb, p) == best && |paths| == 1 ==> p == paths[0]
    {
      RepresentedIsBounded(pb, options, p);
    }
  }

  lemma {:induction false} RepresentedIsBounded(pb: Problem, options: seq<(Score, Path)>, p: Path)
    requires |options| > 0 && Represented(pb, options, p)
    ensures var best := BestScore(options); var paths := KeepTwo(options, best, |options|);
      && AtMost(PathScore(pb, p), best)
      && (PathScore(pb, p) == best && |paths| == 1 ==> p == paths[0])
  {
    var best := BestScore(options);
    assert forall o :: o in options ==> AtMost(o.0, best);
    hide BestScore, PathScore;
    if |KeepTwo(options, best, |options|)| == 1 {
      KeptCovers(options, best);
    }
    hide KeepTwo;
  }

  // In terms of membership: fewer than two kept paths means all best ones are kept.
  lemma {:induction false} KeptCovers(options: seq<(Score, Path)>, best: Score)
    requires |KeepTwo(options, best, |options|)| < 2
    ensures forall x :: (best, x) in options ==> x in KeepTwo(options, best, |options|)
  {
    KeepTwoProperties(options, best, |options|);
  }

  // ----- The memoised computation -----------------------------------------

  class Aligner {
    const pb: Problem
    var memo: map<(nat, int), Solution>

    ghost predicate Valid()
      reads this
    {
      forall k :: k in memo ==> k.0 <= |pb.candidates| && memo[k] == Solve(pb, k.0, k.1)
    }

    constructor (pb: Problem)
      ensures Valid() && this.pb == pb && memo == map[]
    {
      this.pb := pb;
      memo := map[];
    }

    // Every call answers as the plain recursion does.
    method SolveMemo(i: nat, prev: int) returns (s: Solution)
      requires Valid() && i <= |pb.candidates|
      modifies this`memo
      ensures Valid() && s == Solve(pb, i, prev)
      decreases |pb.candidates| - i, 1
    {
      hide Options, BestScore, KeepTwo;
      if (i, prev) in memo {
        return memo[(i, prev)];
      }
      if i == |pb.candidates| {
        s := (Score(0, 0), [[]]);
      } else {
        var options := CollectOptions(i, prev);
        var best := BestScore(options);
        var bestPaths := CollectBest(options, best);
        s := (best, bestPaths);
      }
      memo := memo[(i, prev) := s];
    }

    method CollectOptions(i: nat, prev: int) returns (options: seq<(Score, Path)>)
      requires Valid() && i < |pb.candidates|
      modifies this`memo
      ensures Valid() && options == Options(pb, i, prev, |pb.candidates[i]|)
      decreases |pb.candidates| - i, 0
    {
      hide Solve, Offers;
      var skipped := SolveMemo(i + 1, prev);
      options := Extended([], skipped.0, [], skipped.1);
      for k := 0 to |pb.candidates[i]|
        invariant Valid() && options == Options(pb, i, prev, k)
      {
        var candidate := pb.candidates[i][k];
        if candidate <= prev {
          continue;
        }
        var child := SolveMemo(i + 1, candidate);
        var score := Score(child.0.matches + 1, child.0.evidence + pb.evidence(i, candidate));
        options := Extended(options, score, [(i, candidate)], child.1);
      }
    }

    static method Extended(options: seq<(Score, Path)>, score: Score, first: Path, paths: seq<Path>)
      returns (extended: seq<(Score, Path)>)
      ensures extended == options + Offers(score, first, paths)
    {
      extended := options;
      for j := 0 to |paths|
        invariant extended == options + Offers(score, first, paths)[..j]
      {
        extended := extended + [(score, first + paths[j])];
      }
    }

    static method CollectBest(options: seq<(Score, Path)>, best: Score) returns (bestPaths: seq<Path>)
      ensures bestPaths == KeepTwo(options, best, |options|)
    {
      bestPaths := [];
      for j := 0 to |options|
        invariant bestPaths == KeepTwo(options, best, j) && |bestPaths| < 2
      {
        if options[j].0 == best && options[j].1 !in bestPaths {
          bestPaths := bestPaths + [options[j].1];
          if |bestPaths| == 2 {
            TwoIsEnough(options, best, j + 1, |options|);
            break;
          }
        }
      }
    }
  }

  lemma {:induction false} TwoIsEnough(options: seq<(Score, Path)>, best: Score, k: nat, n: nat)
    requires k <= n <= |options| && |KeepTwo(options, best, k)| == 2
    ensures KeepTwo(options, best, n) == KeepTwo(options, best, k)
    decreases n
  {
    if k < n {
      TwoIsEnough(options, best, k, n - 1);
    }
  }

  // ----- Aligning a bookmark list with a heading list ---------------------

  // The headings among the first n whose normalised title is the outline node's.
  function CandidatesAmong(title: string, headings: seq<Heading>, normalized: string -> string, n: nat): (c: seq<nat>)
    requires n <= |headings|
    ensures forall h: nat :: h in c <==> h < n && normalized(headings[h].title) == normalized(title)
    ensures forall a :: 0 <= a < |c| ==> c[a] < n
    ensures forall a, b :: 0 <= a < b < |c| ==> c[a] < c[b]
  {
    if n == 0 then []
    else if normalized(headings[n - 1].title) == normalized(title)
    then CandidatesAmong(title, headings, normalized, n - 1) + [n - 1]
    else CandidatesAmong(title, headings, normalized, n - 1)
  }

  // Body overlap counts as evidence only for nodes with several candidates.
  function AlignmentProblem(outlines: seq<Outline>, headings: seq<Heading>, normalized: string -> string,
                            overlap: (nat, nat) -> nat): (pb: Problem)
    ensures |pb.candidates| == |outlines|
    ensures forall o :: 0 <= o < |outlines| ==>
      pb.candidates[o] == CandidatesAmong(outlines[o].title, headings, normalized, |headings|)
    ensures forall o: nat, h: nat :: o < |outlines| ==>
      pb.evidence(o, h) == if |pb.candidates[o]| > 1 then overlap(o, h) else 0
  {
    var candidates := seq(|outlines|, o requires 0 <= o < |outlines| =>
      CandidatesAmong(outlines[o].title, headings, normalized, |headings|));
    Problem(candidates, (o: nat, h: nat) =>
      if o < |candidates| && |candidates[o]| > 1 then overlap(o, h) else 0)
  }

  datatype Alignment =
    | Aligned(matched: map<Key, nat>, unmatched: seq<Outline>)
    | Ambiguous(lines: seq<nat>)

  function MatchedKeys(outlines: seq<Outline>, p: Path, n: nat): map<Key, nat>
    requires n <= |p| && forall k :: 0 <= k < |p| ==> p[k].0 < |outlines|
  {
    if n == 0 then map[] else MatchedKeys(outlines, p, n - 1)[outlines[p[n - 1].0].key := p[n - 1].1]
  }

  // The unmatched nodes among the first n, in order.
  function Unmatched(outlines: seq<Outline>, matched: map<Key, nat>, n: nat): seq<Outline>
    requires n <= |outlines|
  {
    if n == 0 then []
    else if outlines[n - 1].key in matched then Unmatched(outlines, matched, n - 1)
    else Unmatched(outlines, matched, n - 1) + [outlines[n - 1]]
  }

  function UsedHeadings(paths: seq<Path>): set<nat> {
    set p: Path, pair: (nat, nat) | p in paths && pair in p :: pair.1
  }

  // The lines of the headings used by some path, among the first n, in order.
  function UsedLines(headings: seq<Heading>, used: set<nat>, n: nat): seq<nat>
    requires n <= |headings|
  {
    if n == 0 then []
    else if n - 1 in used then UsedLines(headings, used, n - 1) + [headings[n - 1].line]
    else UsedLines(headings, used, n - 1)
  }

  // What the caller learns from the optimal paths that were kept.
  function Report(outlines: seq<Outline>, headings: seq<Heading>, paths: seq<Path>): Alignment
    requires forall p: Path, k :: p in paths && 0 <= k < |p| ==> p[k].0 < |outlines|
  {
    if |paths| != 1 then
      var lines := UsedLines(headings, UsedHeadings(paths), |headings|);
      Ambiguous(if |lines| > 8 then lines[..8] else lines)
    else
      assert paths[0] in paths;
      var matched := MatchedKeys(outlines, paths[0], |paths[0]|);
      Aligned(matched, Unmatched(outlines, matched, |outlines|))
  }

  function AlignmentOf(outlines: seq<Outline>, headings: seq<Heading>, pb: Problem): Alignment
    requires |pb.candidates| == |outlines|
  {
    SolvedPathsAreIncreasing(pb);
    Report(outlines, headings, Solve(pb, 0, -1).1)
  }

  method Align(outlines: seq<Outline>, headings: seq<Heading>, normalized: string -> string,
               overlap: (nat, nat) -> nat) returns (r: Alignment)
    ensures r == AlignmentOf(outlines, headings, AlignmentProblem(outlines, headings, normalized, overlap))
  {
    hide Solve, AlignmentProblem, Report;
    var aligner := new Aligner(AlignmentProblem(outlines, headings, normalized, overlap));
    var s := aligner.SolveMemo(0, -1);
    SolvedPathsAreIncreasing(aligner.pb);
    r := ReportPaths(outlines, headings, s.1);
  }

  method ReportPaths(outlines: seq<Outline>, headings: seq<Heading>, paths: seq<Path>) returns (r: Alignment)
    requires forall p: Path, k :: p in paths && 0 <= k < |p| ==> p[k].0 < |outlines|
    ensures r == Report(outlines, headings, paths)
  {
    if |paths| != 1 {
      var lines := UsedLines(headings, UsedHeadings(paths), |headings|);
      return Ambiguous(if |lines| > 8 then lines[..8] else lines);
    }
    assert paths[0] in paths;
    var matched := map[];
    for n := 0 to |paths[0]|
      invariant matched == MatchedKeys(outlines, paths[0], n)
    {
      matched := matched[outlines[paths[0][n].0].key := paths[0][n].1];
    }
    return Aligned(matched, Unmatched(outlines, matched, |outlines|));
  }

  lemma {:induction false} SolvedPathsAreIncreasing(pb: Problem)
    ensures forall p :: p in Solve(pb, 0, -1).1 ==> IncreasingMatching(pb, p)
  {
    SolveIsCorrect(pb, 0, -1);
    forall p | p in Solve(pb, 0, -1).1 ensures IncreasingMatching(pb, p) {
      MatchingFromIsIncreasing(pb, 0, -1, p);
    }
  }

  lemma {:induction false} MatchingFromIsIncreasing(pb: Problem, i: nat, prev: int, p: Path)
    ensures MatchingFrom(pb, i, prev, p) <==>
      IncreasingMatching(pb, p) && (p != [] ==> i <= p[0].0 && prev < p[0].1)
    decreases |p|
  {
    if p != [] {
      var rest := p[1..];
      MatchingFromIsIncreasing(pb, p[0].0 + 1, p[0].1, rest);
      if MatchingFrom(pb, i, prev, p) {
        assert forall k :: 0 < k < |p| ==> p[k] == rest[k - 1];
        forall k | 0 < k < |p| ensures p[0].0 < p[k].0 && p[0].1 < p[k].1 {
          assert p[k] == rest[k - 1] && (k > 1 ==> rest[0].0 < rest[k - 1].0);
        }
      }
      if IncreasingMatching(pb, p) && i <= p[0].0 && prev < p[0].1 {
        assert forall k :: 0 <= k < |rest| ==> rest[k] == p[k + 1];
      }
    }
  }

  // ----- Unique optimum ----------------------------------------------------

  lemma {:induction false} OptimalIsBestFromStart(pb: Problem, p: Path)
    ensures Optimal(pb, p) <==> MatchingFrom(pb, 0, -1, p) && PathScore(pb, p) == Solve(pb, 0, -1).0
  {
    SolveIsCorrect(pb, 0, -1);
    var s := Solve(pb, 0, -1);
    forall q ensures MatchingFrom(pb, 0, -1, q) <==> IncreasingMatching(pb, q) {
      MatchingFromIsIncreasing(pb, 0, -1, q);
    }
    assert s.1[0] in s.1;
  }

  // One kept path means one optimal matching; two mean at least two.
  lemma {:induction false} KeptPathsDecideUniqueness(pb: Problem)
    ensures var paths := Solve(pb, 0, -1).1;
      && (|paths| == 1 <==> OneOptimum(pb))
      && (|paths| == 2 <==> TiedOptima(pb))
      && (|paths| == 1 ==> Optimal(pb, paths[0]))
  {
    var s := Solve(pb, 0, -1);
    SolveIsCorrect(pb, 0, -1);
    forall p ensures Optimal(pb, p) <==> MatchingFrom(pb, 0, -1, p) && PathScore(pb, p) == s.0 {
      OptimalIsBestFromStart(pb, p);
    }
    assert s.1[0] in s.1 && Optimal(pb, s.1[0]);
    if |s.1| == 2 {
      assert s.1[1] in s.1 && Optimal(pb, s.1[1]);
    }
  }

  // The alignment succeeds exactly when a single increasing matching attains the
  // lexicographic maximum of (matches, evidence), and then it is that matching.
  // It reports ambiguity exactly when at least two distinct matchings attain it.
  lemma {:induction false} AlignmentIsUniqueOptimum(outlines: seq<Outline>, headings: seq<Heading>, pb: Problem)
    requires |pb.candidates| == |outlines|
    ensures var r := AlignmentOf(outlines, headings, pb);
      && (r.Aligned? <==> OneOptimum(pb))
      && (r.Ambiguous? <==> TiedOptima(pb))
  {
    hide Solve, OneOptimum, TiedOptima, MatchedKeys, Unmatched, UsedLines, UsedHeadings;
    KeptPathsDecideUniqueness(pb);
  }

  lemma {:induction false} AlignmentIsOptimumsReport(outlines: seq<Outline>, headings: seq<Heading>, pb: Problem, p: Path)
    requires |pb.candidates| == |outlines| && AlignmentOf(outlines, headings, pb).Aligned?
    requires Optimal(pb, p)
    ensures AlignmentOf(outlines, headings, pb) == Report(outlines, headings, [p])
  {
    hide Solve, MatchedKeys, Unmatched, UsedLines, UsedHeadings;
    KeptPathsDecideUniqueness(pb);
    assert Solve(pb, 0, -1).1 == [p];
  }

  // For distinct outline keys, the matched map is the path read as a map.
  lemma {:induction false} PathPairIsMatched(outlines: seq<Outline>, p: Path, n: nat, k: nat)
    requires k < n <= |p| && forall k :: 0 <= k < |p| ==> p[k].0 < |outlines|
    requires forall i, j :: 0 <= i < j < |outlines| ==> outlines[i].key != outlines[j].key
    requires forall a, b :: 0 <= a < b < |p| ==> p[a].0 < p[b].0
    ensures var m := MatchedKeys(outlines, p, n); outlines[p[k].0].key in m && m[outlines[p[k].0].key] == p[k].1
    decreases n
  {
    if k < n - 1 {
      PathPairIsMatched(outlines, p, n - 1, k);
    }
  }

  lemma {:induction false} MatchedKeyHasPair(outlines: seq<Outline>, p: Path, n: nat, key: Key) returns (k: nat)
    requires n <= |p| && forall k :: 0 <= k < |p| ==> p[k].0 < |outlines|
    requires key in MatchedKeys(outlines, p, n)
    ensures k < n && outlines[p[k].0].key == key
    decreases n
  {
    if outlines[p[n - 1].0].key == key {
      k := n - 1;
    } else {
      k := MatchedKeyHasPair(outlines, p, n - 1, key);
    }
  }

  // The matched map sends later outline nodes to later headings, and each node to
  // one of its candidates.
  ghost predicate MonotoneMatch(outlines: seq<Outline>, pb: Problem, matched: map<Key, nat>)
    requires |pb.candidates| == |outlines|
  {
    && (forall key :: key in matched ==> exists i :: 0 <= i < |outlines| && outlines[i].key == key)
    && (forall i :: 0 <= i < |outlines| && outlines[i].key in matched ==>
          matched[outlines[i].key] in pb.candidates[i])
    && (forall i, j :: 0 <= i < j < |outlines| && outlines[i].key in matched && outlines[j].key in matched ==>
          matched[outlines[i].key] < matched[outlines[j].key])
  }

  lemma {:induction false} AlignmentIsMonotone(outlines: seq<Outline>, headings: seq<Heading>, pb: Problem)
    requires |pb.candidates| == |outlines| && AlignmentOf(outlines, headings, pb).Aligned?
    requires forall i, j :: 0 <= i < j < |outlines| ==> outlines[i].key != outlines[j].key
    ensures MonotoneMatch(outlines, pb, AlignmentOf(outlines, headings, pb).matched)
  {
    SolvedPathsAreIncreasing(pb);
    var paths := Solve(pb, 0, -1).1;
    assert paths[0] in paths;
    MatchedIsMonotone(outlines, pb, paths[0]);
  }

  lemma {:induction false} MatchedIsMonotone(outlines: seq<Outline>, pb: Problem, p: Path)
    requires |pb.candidates| == |outlines| && IncreasingMatching(pb, p)
    requires forall i, j :: 0 <= i < j < |outlines| ==> outlines[i].key != outlines[j].key
    ensures MonotoneMatch(outlines, pb, MatchedKeys(outlines, p, |p|))
  {
    hide MatchedKeys;
    var m := MatchedKeys(outlines, p, |p|);
    forall key | key in m ensures exists i :: 0 <= i < |outlines| && outlines[i].key == key {
      var k := MatchedKeyHasPair(outlines, p, |p|, key);
    }
    forall i | 0 <= i < |outlines| && outlines[i].key in m ensures m[outlines[i].key] in pb.candidates[i] {
      var k := PairOf(outlines, pb, p, i);
    }
    forall i, j | 0 <= i < j < |outlines| && outlines[i].key in m && outlines[j].key in m
      ensures m[outlines[i].key] < m[outlines[j].key]
    {
      var k := PairOf(outlines, pb, p, i);
      var l := PairOf(outlines, pb, p, j);
      assert k != l && !(l < k);
    }
  }

  lemma {:induction false} PairOf(outlines: seq<Outline>, pb: Problem, p: Path, i: nat) returns (k: nat)
    requires |pb.candidates| == |outlines| && IncreasingMatching(pb, p)
    requires forall i, j :: 0 <= i < j < |outlines| ==> outlines[i].key != outlines[j].key
    requires i < |outlines| && outlines[i].key in MatchedKeys(outlines, p, |p|)
    ensures k < |p| && p[k] == (i, MatchedKeys(outlines, p, |p|)[outlines[i].key])
  {
    hide MatchedKeys;
    k := MatchedKeyHasPair(outlines, p, |p|, outlines[i].key);
    PathPairIsMatched(outlines, p, |p|, k);
  }

  // ----- What the caller gets --------------------------------------------------

  // Path p places outline node i.
  predicate Places(p: Path, i: nat, h: nat) {
    (i, h) in p
  }

  // at lists, in order, the indices below n for which the node is not placed by p.
  ghost predicate ListsUnplaced(p: Path, n: nat, at: seq<nat>) {
    && (forall a, b :: 0 <= a < b < |at| ==> at[a] < at[b])
    && (forall i: nat :: i in at <==> i < n && forall h :: !Places(p, i, h))
  }

  // A successful alignment maps just the nodes that the one optimum places, each to its
  // heading there, and reports the others, in order and once each.
  lemma {:induction false} AlignmentReportsTheOptimum(outlines: seq<Outline>, headings: seq<Heading>, pb: Problem, p: Path)
    returns (at: seq<nat>)
    requires |pb.candidates| == |outlines| && AlignmentOf(outlines, headings, pb).Aligned? && Optimal(pb, p)
    requires forall i, j :: 0 <= i < j < |outlines| ==> outlines[i].key != outlines[j].key
    ensures var r := AlignmentOf(outlines, headings, pb);
      && (forall i, h :: 0 <= i < |outlines| && Places(p, i, h) ==>
            outlines[i].key in r.matched && r.matched[outlines[i].key] == h)
      && (forall i :: 0 <= i < |outlines| && outlines[i].key in r.matched ==> Places(p, i, r.matched[outlines[i].key]))
      && (forall key :: key in r.matched ==> exists i :: 0 <= i < |outlines| && outlines[i].key == key)
      && ListsUnplaced(p, |outlines|, at) && |at| == |r.unmatched|
      && (forall j :: 0 <= j < |at| ==> at[j] < |outlines| && r.unmatched[j] == outlines[at[j]])
  {
    AlignmentIsOptimumsReport(outlines, headings, pb, p);
    var m := MatchedKeys(outlines, p, |p|);
    assert AlignmentOf(outlines, headings, pb) == Aligned(m, Unmatched(outlines, m, |outlines|));
    assert IncreasingMatching(pb, p);
    hide AlignmentOf, Optimal, MatchedKeys, Unmatched, Report;
    forall i, h | 0 <= i < |outlines| && Places(p, i, h) ensures outlines[i].key in m && m[outlines[i].key] == h {
      PlacedIsMatched(outlines, pb, p, i, h);
    }
    forall i | 0 <= i < |outlines| && outlines[i].key in m ensures Places(p, i, m[outlines[i].key]) {
      var k := PairOf(outlines, pb, p, i);
    }
    forall key | key in m ensures exists i :: 0 <= i < |outlines| && outlines[i].key == key {
      var k := MatchedKeyHasPair(outlines, p, |p|, key);
    }
    at := UnmatchedAt(outlines, m, |outlines|);
    hide IncreasingMatching;
  }

  lemma {:induction false} PlacedIsMatched(outlines: seq<Outline>, pb: Problem, p: Path, i: nat, h: nat)
    requires |pb.candidates| == |outlines| && IncreasingMatching(pb, p) && Places(p, i, h)
    requires forall i, j :: 0 <= i < j < |outlines| ==> outlines[i].key != outlines[j].key
    ensures i < |outlines|
    ensures var m := MatchedKeys(outlines, p, |p|); outlines[i].key in m && m[outlines[i].key] == h
  {
    var k :| 0 <= k < |p| && p[k] == (i, h);
    hide MatchedKeys;
    PathPairIsMatched(outlines, p, |p|, k);
  }

  lemma {:induction false} UnmatchedAt(outlines: seq<Outline>, matched: map<Key, nat>, n: nat) returns (at: seq<nat>)
    requires n <= |outlines|
    ensures |at| == |Unmatched(outlines, matched, n)|
    ensures forall a, b :: 0 <= a < b < |at| ==> at[a] < at[b]
    ensures forall j :: 0 <= j < |at| ==> at[j] < n && Unmatched(outlines, matched, n)[j] == outlines[at[j]]
    ensures forall i: nat :: i in at <==> i < n && outlines[i].key !in matched
  {
    at := [];
    if n > 0 {
      at := UnmatchedAt(outlines, matched, n - 1);
      var before := Unmatched(outlines, matched, n - 1);
      if outlines[n - 1].key !in matched {
        at := at + [n - 1];
        assert Unmatched(outlines, matched, n) == before + [outlines[n - 1]];
      } else {
        assert Unmatched(outlines, matched, n) == before;
      }
      hide Unmatched;
    }
  }

  // The headings that one of two paths uses.
  predicate UsedBy(p: Path, q: Path, h: nat) {
    (exists k :: 0 <= k < |p| && p[k].1 == h) || exists k :: 0 <= k < |q| && q[k].1 == h
  }

  // An ambiguous alignment names two distinct optima by the lines of the headings they
  // use: in heading order, the first eight.
  lemma {:induction false} AmbiguityNamesTwoOptima(outlines: seq<Outline>, headings: seq<Heading>, pb: Problem)
    returns (p: Path, q: Path, used: seq<nat>)
    requires |pb.candidates| == |outlines| && AlignmentOf(outlines, headings, pb).Ambiguous?
    ensures Optimal(pb, p) && Optimal(pb, q) && p != q
    ensures var lines := AlignmentOf(outlines, headings, pb).lines;
      && (forall a, b :: 0 <= a < b < |used| ==> used[a] < used[b])
      && (forall h: nat :: h in used <==> h < |headings| && UsedBy(p, q, h))
      && |lines| == (if |used| > 8 then 8 else |used|)
      && (forall j :: 0 <= j < |lines| ==> used[j] < |headings| && lines[j] == headings[used[j]].line)
  {
    hide *;
    AmbiguityIsReported(outlines, headings, pb);
    BothKeptAreOptimal(pb);
    var paths := Solve(pb, 0, -1).1;
    p, q := paths[0], paths[1];
    used := UsedAt(headings, UsedHeadings(paths), |headings|);
    forall h: nat ensures h in UsedHeadings(paths) <==> UsedBy(p, q, h) {
      UsedHeadingsAre(paths, h);
    }
  }

  lemma {:induction false} BothKeptAreOptimal(pb: Problem)
    requires |Solve(pb, 0, -1).1| == 2
    ensures var paths := Solve(pb, 0, -1).1; Optimal(pb, paths[0]) && Optimal(pb, paths[1]) && paths[0] != paths[1]
  {
    var s := Solve(pb, 0, -1);
    SolveIsCorrect(pb, 0, -1);
    assert s.1[0] in s.1 && s.1[1] in s.1;
    hide Solve, Optimal, MatchingFrom, PathScore;
    OptimalIsBestFromStart(pb, s.1[0]);
    OptimalIsBestFromStart(pb, s.1[1]);
  }

  lemma {:induction false} AmbiguityIsReported(outlines: seq<Outline>, headings: seq<Heading>, pb: Problem)
    requires |pb.candidates| == |outlines| && AlignmentOf(outlines, headings, pb).Ambiguous?
    ensures var paths := Solve(pb, 0, -1).1; var lines := UsedLines(headings, UsedHeadings(paths), |headings|);
      |paths| == 2 && AlignmentOf(outlines, headings, pb) == Ambiguous(if |lines| > 8 then lines[..8] else lines)
  {
    SolvedPathsAreIncreasing(pb);
    var paths := Solve(pb, 0, -1).1;
    hide Solve, UsedLines, UsedHeadings, MatchedKeys, Unmatched, IncreasingMatching;
    assert AlignmentOf(outlines, headings, pb) == Report(outlines, headings, paths);
    hide AlignmentOf;
  }

  lemma {:induction false} UsedHeadingsAre(paths: seq<Path>, h: nat)
    requires |paths| == 2
    ensures h in UsedHeadings(paths) <==> UsedBy(paths[0], paths[1], h)
  {
    if h in UsedHeadings(paths) {
      var p: Path, pair: (nat, nat) :| p in paths && pair in p && pair.1 == h;
      var k :| 0 <= k < |p| && p[k] == pair;
    }
    if UsedBy(paths[0], paths[1], h) {
      if k :| 0 <= k < |paths[0]| && paths[0][k].1 == h {
        assert paths[0] in paths && paths[0][k] in paths[0];
      } else {
        var k :| 0 <= k < |paths[1]| && paths[1][k].1 == h;
        assert paths[1] in paths && paths[1][k] in paths[1];
      }
    }
  }

  lemma {:induction false} UsedAt(headings: seq<Heading>, used: set<nat>, n: nat) returns (at: seq<nat>)
    requires n <= |headings|
    ensures |at| == |UsedLines(headings, used, n)|
    ensures forall a, b :: 0 <= a < b < |at| ==> at[a] < at[b]
    ensures forall j :: 0 <= j < |at| ==> at[j] < n && UsedLines(headings, used, n)[j] == headings[at[j]].line
    ensures forall h: nat :: h in at <==> h < n && h in used
  {
    at := [];
    if n > 0 {
      at := UsedAt(headings, used, n - 1);
      var before := UsedLines(headings, used, n - 1);
      if n - 1 in used {
        at := at + [n - 1];
        assert UsedLines(headings, used, n) == before + [headings[n - 1].line];
      } else {
        assert UsedLines(headings, used, n) == before;
      }
      hide UsedLines;
    }
  }
}
