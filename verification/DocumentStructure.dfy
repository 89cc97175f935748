// The whole reconstruction: Markdown lines and a bookmark tree in, a section
// forest or one of its refusals out.
module DocumentStructure {
  import opened Bookmarks
  import opened Common
  import opened MarkdownHeadings
  import opened OutlineAlignment
  import SF = SectionForest

  // What came of asking qpdf for the bookmarks.
  datatype Extraction = Extracted(roots: Kids) | ExtractionFailed | ExtractionMalformed

  // text holds the Markdown lines, None when the payload is not UTF-8. overlap is the
  // body evidence; the other functions are title normalisation, the section digest and
  // the number-only title test.
  datatype Source = Source(sourceFormat: string, outlineFormat: string, text: Option<seq<Line>>, outline: Extraction,
                           normalized: string -> string, overlap: (nat, nat) -> nat,
                           digest: (Heading, SF.Identity) -> string, structural: string -> bool)

  datatype Failure =
    | SourceNotMarkdown
    | OutlineNotPdf
    | SourceNotUtf8
    | NoHeadings
    | QpdfFailed
    | QpdfInvalid(cause: Malformed)
    | NoOutline
    | AlignmentAmbiguous(lines: seq<nat>)
    | AlignmentFailed
    | DuplicateSectionIds

  function LinesOf(s: Source): seq<Line> {
    if s.text.Some? then s.text.value else []
  }

  // Malformed JSON has no list of bookmarks.
  function RootsOf(s: Source): Kids {
    if s.outline.Extracted? then s.outline.roots else NotAList
  }

  // The payloads are of the right kinds and could be read.
  predicate Readable(s: Source) {
    s.sourceFormat == "markdown" && s.outlineFormat == "pdf" && s.text.Some? && !s.outline.ExtractionFailed?
  }

  predicate DistinctIds(es: seq<SF.Entry>) {
    forall i, j :: 0 <= i < j < |es| ==> es[i].id != es[j].id
  }

  function HeadingsOf(s: Source): seq<Heading> {
    Headings(LinesOf(s), |LinesOf(s)|)
  }

  function ProblemOf(s: Source): (pb: Problem)
    requires Outlines(RootsOf(s)).Ok?
    ensures |pb.candidates| == |Outlines(RootsOf(s)).value|
  {
    AlignmentProblem(Outlines(RootsOf(s)).value, HeadingsOf(s), s.normalized, s.overlap)
  }

  function InputOf(s: Source, matched: map<Key, nat>): SF.Input
    requires Outlines(RootsOf(s)).Ok?
  {
    SF.Input(Outlines(RootsOf(s)).value, HeadingsOf(s), matched, |LinesOf(s)|, s.digest, s.normalized, s.structural)
  }

  function Reconstruction(s: Source): Result<seq<SF.Entry>, Failure> {
    var outlines := Outlines(RootsOf(s));
    if s.sourceFormat != "markdown" then Err(SourceNotMarkdown)
    else if s.outlineFormat != "pdf" then Err(OutlineNotPdf)
    else if s.text.None? then Err(SourceNotUtf8)
    else if HeadingsOf(s) == [] then Err(NoHeadings)
    else if s.outline.ExtractionFailed? then Err(QpdfFailed)
    else if outlines.Err? then Err(QpdfInvalid(outlines.error))
    else if outlines.value == [] then Err(NoOutline)
    else
      var alignment := AlignmentOf(outlines.value, HeadingsOf(s), ProblemOf(s));
      if alignment.Ambiguous? then Err(AlignmentAmbiguous(alignment.lines))
      else if alignment.matched == map[] then Err(AlignmentFailed)
      else
        var entries := SF.Entries(InputOf(s, alignment.matched));
        if DistinctIds(entries) then Ok(entries) else Err(DuplicateSectionIds)
  }

  method Reconstruct(s: Source) returns (r: Result<seq<SF.Entry>, Failure>)
    ensures r == Reconstruction(s)
  {
    hide AlignmentOf, AlignmentProblem, SF.Entries, Outlines, Headings;
    if s.sourceFormat != "markdown" {
      return Err(SourceNotMarkdown);
    }
    if s.outlineFormat != "pdf" {
      return Err(OutlineNotPdf);
    }
    if s.text.None? {
      return Err(SourceNotUtf8);
    }
    var headings := Collect(LinesOf(s));
    if headings == [] {
      return Err(NoHeadings);
    }
    if s.outline.ExtractionFailed? {
      return Err(QpdfFailed);
    }
    var outlines := ExtractOutlines(RootsOf(s));
    if outlines.Err? {
      return Err(QpdfInvalid(outlines.error));
    }
    if outlines.value == [] {
      return Err(NoOutline);
    }
    var alignment := Align(outlines.value, headings, s.normalized, s.overlap);
    if alignment.Ambiguous? {
      return Err(AlignmentAmbiguous(alignment.lines));
    }
    if alignment.matched == map[] {
      return Err(AlignmentFailed);
    }
    var entries := SF.BuildEntries(SF.Input(outlines.value, headings, alignment.matched, |LinesOf(s)|, s.digest, s.normalized, s.structural));
    r := if DistinctIds(entries) then Ok(entries) else Err(DuplicateSectionIds);
  }

  // The scanners and the aligner hand the builder what its ranges rely on.
  lemma {:induction false} BuilderInputIsAligned(s: Source)
    requires Outlines(RootsOf(s)).Ok?
    requires AlignmentOf(Outlines(RootsOf(s)).value, HeadingsOf(s), ProblemOf(s)).Aligned?
    ensures SF.Aligned(InputOf(s, AlignmentOf(Outlines(RootsOf(s)).value, HeadingsOf(s), ProblemOf(s)).matched))
  {
    hide AlignmentOf, Outlines, Headings;
    var os, hs, pb := Outlines(RootsOf(s)).value, HeadingsOf(s), ProblemOf(s);
    OutlinesArePreorderListing(RootsOf(s));
    HeadingsListHeadingLines(LinesOf(s), |LinesOf(s)|);
    AlignmentIsMonotone(os, hs, pb);
    var input := InputOf(s, AlignmentOf(os, hs, pb).matched);
    MonotoneMatchIsMonotone(input, pb, s.normalized, s.overlap);
    assert SF.LinesAscend(input) by {
      forall i | 0 <= i < |hs| ensures 1 <= hs[i].line <= |LinesOf(s)| { assert hs[i] in hs; }
    }
    assert SF.Titled(input) by {
      forall i | 0 <= i < |hs| ensures hs[i].title != "" { assert hs[i] in hs; }
    }
  }

  lemma {:induction false} MonotoneMatchIsMonotone(input: SF.Input, pb: Problem, normalized: string -> string, overlap: (nat, nat) -> nat)
    requires pb == AlignmentProblem(input.outlines, input.headings, normalized, overlap)
    requires MonotoneMatch(input.outlines, pb, input.matched)
    requires forall i, j :: 0 <= i < j < |input.outlines| ==> input.outlines[i].key != input.outlines[j].key
    ensures SF.Monotone(input)
  {
    forall i | 0 <= i < |input.outlines| && SF.IsMatched(input, i)
      ensures SF.HeadingOf(input, i) < |input.headings|
    {
      assert input.matched[input.outlines[i].key] in pb.candidates[i];
    }
  }

  // Every accepted input yields a forest: one entry per heading in line order,
  // line ranges nested or disjoint, and each parent id naming the one entry that
  // is the innermost cover of its child, one level up.
  lemma {:induction false} ReconstructionIsForest(s: Source)
    requires Reconstruction(s).Ok?
    ensures var es := Reconstruction(s).value;
      && SF.Forest(es, |LinesOf(s)|) && DistinctIds(es)
      && |es| == |HeadingsOf(s)|
      && forall i :: 0 <= i < |es| ==> es[i].line == HeadingsOf(s)[i].line && es[i].title == HeadingsOf(s)[i].title
  {
    hide AlignmentOf, Outlines, Headings, SF.Forest;
    BuilderInputIsAligned(s);
    SF.EntriesFormForest(InputOf(s, AlignmentOf(Outlines(RootsOf(s)).value, HeadingsOf(s), ProblemOf(s)).matched));
  }

  // When every bookmark is matched, only top-level entries lack a parent.
  lemma {:induction false} FullAlignmentLeavesNoOrphan(s: Source)
    requires Reconstruction(s).Ok?
    requires AlignmentOf(Outlines(RootsOf(s)).value, HeadingsOf(s), ProblemOf(s)).unmatched == []
    ensures forall e :: e in Reconstruction(s).value ==> (e.parent.None? <==> e.level == 1)
  {
    hide AlignmentOf, Outlines, Headings;
    var os, hs, pb := Outlines(RootsOf(s)).value, HeadingsOf(s), ProblemOf(s);
    var r := AlignmentOf(os, hs, pb);
    BuilderInputIsAligned(s);
    var input := InputOf(s, r.matched);
    UnmatchedIsComplete(os, hs, pb);
    forall c | 0 <= c < |hs| ensures SF.Entries(input)[c].parent.None? <==> SF.Entries(input)[c].level == 1 {
      SF.OrphansHaveUnmatchedParents(input, c);
      if c in SF.Nodes(input) {
        var b := SF.NodeIndex(input, |os|, c);
        assert HangsFrom(os, b, 1, None);
      }
    }
  }

  lemma {:induction false} UnmatchedIsComplete(outlines: seq<Outline>, headings: seq<Heading>, pb: Problem)
    requires |pb.candidates| == |outlines| && AlignmentOf(outlines, headings, pb).Aligned?
    ensures var r := AlignmentOf(outlines, headings, pb);
      r.unmatched == [] ==> forall i :: 0 <= i < |outlines| ==> outlines[i].key in r.matched
  {
    var r := AlignmentOf(outlines, headings, pb);
    assert r.unmatched == Unmatched(outlines, r.matched, |outlines|);
    hide AlignmentOf, Unmatched;
    var at := UnmatchedAt(outlines, r.matched, |outlines|);
    forall i: nat | i < |outlines| && r.unmatched == [] ensures outlines[i].key in r.matched {
      assert i !in at;
    }
  }

  // An optimum is empty only when no bookmark has a candidate heading at all.
  lemma {:induction false} EmptyOptimumMeansNoCandidates(pb: Problem, p: Path)
    requires Optimal(pb, p)
    ensures p == [] <==> forall o :: 0 <= o < |pb.candidates| ==> pb.candidates[o] == []
  {
    MatchingNeedsCandidate(pb, p);
    if o :| 0 <= o < |pb.candidates| && pb.candidates[o] != [] {
      var q: Path := [(o, pb.candidates[o][0])];
      assert IncreasingMatching(pb, q);
      assert AtMost(PathScore(pb, q), PathScore(pb, p));
    }
  }

  lemma {:induction false} MatchingNeedsCandidate(pb: Problem, p: Path)
    requires IncreasingMatching(pb, p)
    ensures p == [] || exists o :: 0 <= o < |pb.candidates| && pb.candidates[o] != []
  {
    if p != [] {
      assert p[0].1 in pb.candidates[p[0].0];
    }
  }

  lemma {:induction false} MatchedKeysIsEmpty(outlines: seq<Outline>, p: Path)
    requires forall k :: 0 <= k < |p| ==> p[k].0 < |outlines|
    ensures MatchedKeys(outlines, p, |p|) == map[] <==> p == []
  {
    if p != [] {
      assert outlines[p[|p| - 1].0].key in MatchedKeys(outlines, p, |p|);
    }
  }

  // The exact conditions of the refusals before the alignment.
  lemma {:induction false} EarlyRefusals(s: Source)
    ensures var r := Reconstruction(s); var refusal := if r.Err? then Some(r.error) else None;
      && (refusal == Some(SourceNotMarkdown) <==> s.sourceFormat != "markdown")
      && (refusal == Some(OutlineNotPdf) <==> s.sourceFormat == "markdown" && s.outlineFormat != "pdf")
      && (refusal == Some(SourceNotUtf8) <==> s.sourceFormat == "markdown" && s.outlineFormat == "pdf" && s.text.None?)
      && (refusal == Some(NoHeadings) <==> SourceReadable(s) && NoTitledLine(LinesOf(s)))
      && (refusal == Some(QpdfFailed) <==> SourceReadable(s) && !NoTitledLine(LinesOf(s)) && s.outline.ExtractionFailed?)
      && (Readable(s) && !NoTitledLine(LinesOf(s)) ==>
            && (forall e :: refusal == Some(QpdfInvalid(e)) <==> Outlines(RootsOf(s)) == Err(e))
            && (refusal == Some(NoOutline) <==> Outlines(RootsOf(s)) == Ok([])))
  {
    NoHeadingsIff(LinesOf(s));
    hide AlignmentOf, Outlines, Headings, NoTitledLine, SF.Entries, DistinctIds, ProblemOf, InputOf;
  }

  predicate SourceReadable(s: Source) {
    s.sourceFormat == "markdown" && s.outlineFormat == "pdf" && s.text.Some?
  }

  // No line has an ATX title outside every fence.
  ghost predicate NoTitledLine(lines: seq<Line>) {
    forall n :: 0 <= n < |lines| ==> !IsTitled(lines, n)
  }

  lemma {:induction false} NoHeadingsIff(lines: seq<Line>)
    ensures Headings(lines, |lines|) == [] <==> NoTitledLine(lines)
  {
    HeadingsCarryTheirLines(lines);
    var hs := Headings(lines, |lines|);
    hide Headings, IsTitled;
    if hs != [] {
      assert hs[0] in hs && IsTitled(lines, hs[0].line - 1);
    }
  }

  // The exact conditions of success, and of the two alignment refusals.
  lemma {:induction false} ReconstructionOutcome(s: Source)
    requires Readable(s) && HeadingsOf(s) != [] && Outlines(RootsOf(s)).Ok? && Outlines(RootsOf(s)).value != []
    ensures var pb, r := ProblemOf(s), Reconstruction(s);
      var someCandidate := exists o :: 0 <= o < |pb.candidates| && pb.candidates[o] != [];
      && ((r.Err? && r.error.AlignmentAmbiguous?) <==> TiedOptima(pb))
      && ((r.Err? && r.error.AlignmentFailed?) <==> !someCandidate)
      && ((r.Ok? || r.error.DuplicateSectionIds?) <==> OneOptimum(pb) && someCandidate)
  {
    hide AlignmentOf, Outlines, Headings, Optimal, AlignmentProblem;
    var os, hs, pb := Outlines(RootsOf(s)).value, HeadingsOf(s), ProblemOf(s);
    AlignmentIsUniqueOptimum(os, hs, pb);
    if forall o :: 0 <= o < |pb.candidates| ==> pb.candidates[o] == [] {
      NoCandidatesMeansOneOptimum(pb);
    }
    if AlignmentOf(os, hs, pb).Aligned? {
      var p :| Optimal(pb, p) && forall q :: Optimal(pb, q) ==> q == p;
      EmptyOptimumMeansNoCandidates(pb, p);
      OptimumMatchesNothingIffEmpty(os, hs, pb, p);
    }
  }

  // What heading h is identified by under a matching: its bookmark's key, or its line.
  ghost predicate Identifies(os: seq<Outline>, hs: seq<Heading>, p: Path, h: nat, id: SF.Identity)
    requires h < |hs|
  {
    && (forall i :: 0 <= i < |os| && Places(p, i, h) ==> id == SF.ByKey(os[i].key))
    && ((forall i :: 0 <= i < |os| ==> !Places(p, i, h)) ==> id == SF.Internal(hs[h].line))
  }

  // Two headings have the same section digest.
  ghost predicate SameDigest(s: Source, os: seq<Outline>, hs: seq<Heading>, p: Path) {
    exists g, h, a, b :: 0 <= g < h < |hs| && Identifies(os, hs, p, g, a) && Identifies(os, hs, p, h, b)
      && s.digest(hs[g], a) == s.digest(hs[h], b)
  }

  // The input that the entries are built from under the one optimum.
  ghost predicate BuiltFrom(s: Source, input: SF.Input, p: Path)
    requires Outlines(RootsOf(s)).Ok?
  {
    && input.outlines == Outlines(RootsOf(s)).value && input.headings == HeadingsOf(s) && input.digest == s.digest
    && SF.Monotone(input)
    && forall i, h: nat :: 0 <= i < |input.outlines| ==>
         (Places(p, i, h) <==> SF.IsMatched(input, i) && SF.HeadingOf(input, i) == h)
  }

  lemma {:induction false} InputIsBuiltFrom(s: Source, p: Path)
    requires Outlines(RootsOf(s)).Ok? && Optimal(ProblemOf(s), p)
    requires AlignmentOf(Outlines(RootsOf(s)).value, HeadingsOf(s), ProblemOf(s)).Aligned?
    ensures var input := InputOf(s, AlignmentOf(Outlines(RootsOf(s)).value, HeadingsOf(s), ProblemOf(s)).matched);
      BuiltFrom(s, input, p) && SF.Aligned(input)
  {
    hide AlignmentOf, Outlines, Headings, Optimal;
    var os, hs, pb := Outlines(RootsOf(s)).value, HeadingsOf(s), ProblemOf(s);
    BuilderInputIsAligned(s);
    OutlinesArePreorderListing(RootsOf(s));
    var at := AlignmentReportsTheOptimum(os, hs, pb, p);
    hide ProblemOf, HeadingsOf;
  }

  // An entry's id is its heading's section digest.
  lemma {:induction false} IdIsDigest(s: Source, input: SF.Input, p: Path, h: nat, id: SF.Identity)
    requires Outlines(RootsOf(s)).Ok? && BuiltFrom(s, input, p)
    requires h < |input.headings| && Identifies(input.outlines, input.headings, p, h, id)
    ensures SF.Entries(input)[h].id == "struct-" + s.digest(input.headings[h], id)
  {
    hide SF.Entries, SF.Monotone, Outlines, HeadingsOf;
    if i :| 0 <= i < |input.outlines| && Places(p, i, h) {
      SF.MatchedEntryIsItsBookmarks(input, i);
    } else {
      SF.UnmatchedEntryIsInferred(input, h);
    }
  }

  // Every heading is identified by one thing.
  lemma {:induction false} IdentityOf(s: Source, input: SF.Input, p: Path, h: nat) returns (id: SF.Identity)
    requires Outlines(RootsOf(s)).Ok? && BuiltFrom(s, input, p) && h < |input.headings|
    ensures Identifies(input.outlines, input.headings, p, h, id)
  {
    hide Outlines, HeadingsOf;
    if i :| 0 <= i < |input.outlines| && Places(p, i, h) {
      id := SF.ByKey(input.outlines[i].key);
      forall j | 0 <= j < |input.outlines| && Places(p, j, h) ensures j == i {
        assert SF.HeadingOf(input, j) == SF.HeadingOf(input, i);
      }
    } else {
      id := SF.Internal(input.headings[h].line);
    }
  }

  lemma {:induction false} IdsAreDistinctIff(s: Source, input: SF.Input, p: Path)
    requires Outlines(RootsOf(s)).Ok? && BuiltFrom(s, input, p)
    ensures DistinctIds(SF.Entries(input)) <==> !SameDigest(s, input.outlines, input.headings, p)
  {
    hide Identifies, BuiltFrom, Outlines, SF.Entries;
    var os, hs, es := input.outlines, input.headings, SF.Entries(input);
    if SameDigest(s, os, hs, p) {
      var g: nat, h: nat, a, b :| g < h < |hs| && Identifies(os, hs, p, g, a) && Identifies(os, hs, p, h, b)
        && s.digest(hs[g], a) == s.digest(hs[h], b);
      IdIsDigest(s, input, p, g, a);
      IdIsDigest(s, input, p, h, b);
    }
    if g: nat, h: nat :| g < h < |es| && es[g].id == es[h].id {
      var a := IdentityOf(s, input, p, g);
      var b := IdentityOf(s, input, p, h);
      IdIsDigest(s, input, p, g, a);
      IdIsDigest(s, input, p, h, b);
      SamePrefix("struct-", s.digest(hs[g], a), s.digest(hs[h], b));
    }
  }

  lemma {:induction false} SamePrefix(prefix: string, a: string, b: string)
    requires prefix + a == prefix + b
    ensures a == b
  {
    assert a == (prefix + a)[|prefix|..] && b == (prefix + b)[|prefix|..];
  }

  // With one optimum that matches something, the reconstruction succeeds exactly when no
  // two headings have the same section digest; it is then refused for that alone.
  lemma {:induction false} SucceedsIffIdsAreDistinct(s: Source, p: Path)
    requires Readable(s) && HeadingsOf(s) != [] && Outlines(RootsOf(s)).Ok? && Outlines(RootsOf(s)).value != []
    requires OneOptimum(ProblemOf(s)) && Optimal(ProblemOf(s), p) && p != []
    ensures var os, hs := Outlines(RootsOf(s)).value, HeadingsOf(s);
      && (Reconstruction(s).Ok? <==> !SameDigest(s, os, hs, p))
      && (Reconstruction(s).Err? ==> Reconstruction(s).error == DuplicateSectionIds)
  {
    hide AlignmentOf, Outlines, Headings, Optimal, AlignmentProblem, SF.Entries, DistinctIds, SameDigest;
    var os, hs, pb := Outlines(RootsOf(s)).value, HeadingsOf(s), ProblemOf(s);
    AlignmentIsUniqueOptimum(os, hs, pb);
    OptimumMatchesNothingIffEmpty(os, hs, pb, p);
    InputIsBuiltFrom(s, p);
    IdsAreDistinctIff(s, InputOf(s, AlignmentOf(os, hs, pb).matched), p);
  }

  // The entry of heading h has the level, page, kind and key of bookmark o.
  ghost predicate IsBookmarks(s: Source, o: Outline, hs: seq<Heading>, es: seq<SF.Entry>, h: nat) {
    && h < |es| == |hs| && es[h].level == o.level && es[h].pageStart == Some(o.page)
    && es[h].kind == (if o.hasChildren then SF.Container else SF.Content)
    && es[h].id == "struct-" + s.digest(hs[h], SF.ByKey(o.key))
  }

  // The entry of heading h has no page, and its kind and id are by its own text.
  ghost predicate IsInferred(s: Source, hs: seq<Heading>, es: seq<SF.Entry>, h: nat) {
    && h < |es| == |hs| && es[h].pageStart.None? && es[h].matching == SF.INFERRED
    && es[h].kind == (if s.structural(hs[h].title) then SF.Structural else SF.InternalNode)
    && es[h].id == "struct-" + s.digest(hs[h], SF.Internal(hs[h].line))
  }

  // No bookmark is placed at heading h.
  ghost predicate Unplaced(os: seq<Outline>, p: Path, h: nat) {
    forall i :: 0 <= i < |os| ==> !Places(p, i, h)
  }

  lemma {:induction false} UnplacedIsInferred(s: Source, input: SF.Input, p: Path, h: nat)
    requires Outlines(RootsOf(s)).Ok? && BuiltFrom(s, input, p) && h < |input.headings| && Unplaced(input.outlines, p, h)
    requires input.structural == s.structural
    ensures IsInferred(s, input.headings, SF.Entries(input), h)
  {
    hide Outlines, HeadingsOf, SF.Entries;
    forall i | 0 <= i < |input.outlines| && SF.IsMatched(input, i) ensures SF.HeadingOf(input, i) != h {
      assert !Places(p, i, h);
    }
    SF.UnmatchedEntryIsInferred(input, h);
  }

  lemma {:induction false} PlacedIsBookmarks(s: Source, input: SF.Input, p: Path, i: nat, h: nat)
    requires Outlines(RootsOf(s)).Ok? && BuiltFrom(s, input, p) && i < |input.outlines| && Places(p, i, h)
    ensures IsBookmarks(s, input.outlines[i], input.headings, SF.Entries(input), h)
  {
    hide Outlines, HeadingsOf, SF.Entries;
    SF.MatchedEntryIsItsBookmarks(input, i);
  }

  // The entries of an accepted document follow its one optimum: a placed bookmark gives its
  // heading's entry its level, page, kind and key; the other entries are inferred.
  lemma {:induction false} EntriesFollowTheOptimum(s: Source, p: Path)
    requires Reconstruction(s).Ok? && Optimal(ProblemOf(s), p)
    ensures var os, hs, es := Outlines(RootsOf(s)).value, HeadingsOf(s), Reconstruction(s).value;
      && (forall i, h: nat :: 0 <= i < |os| && Places(p, i, h) ==> IsBookmarks(s, os[i], hs, es, h))
      && (forall h: nat :: h < |es| && Unplaced(os, p, h) ==> IsInferred(s, hs, es, h))
  {
    hide AlignmentOf, Outlines, Headings, Optimal, AlignmentProblem, SF.Entries, DistinctIds, IsBookmarks, IsInferred, Unplaced, BuiltFrom;
    var os, hs, pb := Outlines(RootsOf(s)).value, HeadingsOf(s), ProblemOf(s);
    InputIsBuiltFrom(s, p);
    var input := InputOf(s, AlignmentOf(os, hs, pb).matched);
    assert Reconstruction(s).value == SF.Entries(input);
    hide Reconstruction;
    forall i, h: nat | 0 <= i < |os| && Places(p, i, h) ensures IsBookmarks(s, os[i], hs, SF.Entries(input), h) {
      PlacedIsBookmarks(s, input, p, i, h);
    }
    forall h: nat | h < |hs| && Unplaced(os, p, h) ensures IsInferred(s, hs, SF.Entries(input), h) {
      UnplacedIsInferred(s, input, p, h);
    }
  }

  // An ambiguous document is refused with the lines of two optima's headings.
  lemma {:induction false} AmbiguousRefusalNamesLines(s: Source) returns (p: Path, q: Path, used: seq<nat>)
    requires Reconstruction(s).Err? && Reconstruction(s).error.AlignmentAmbiguous?
    ensures Outlines(RootsOf(s)).Ok? && Optimal(ProblemOf(s), p) && Optimal(ProblemOf(s), q) && p != q
    ensures var lines, hs := Reconstruction(s).error.lines, HeadingsOf(s);
      && (forall a, b :: 0 <= a < b < |used| ==> used[a] < used[b])
      && (forall h: nat :: h in used <==> h < |hs| && UsedBy(p, q, h))
      && |lines| == (if |used| > 8 then 8 else |used|)
      && (forall j :: 0 <= j < |lines| ==> used[j] < |hs| && lines[j] == hs[used[j]].line)
  {
    hide AlignmentOf, Outlines, Headings, Optimal, AlignmentProblem, SF.Entries, DistinctIds, UsedBy;
    p, q, used := AmbiguityNamesTwoOptima(Outlines(RootsOf(s)).value, HeadingsOf(s), ProblemOf(s));
  }

  lemma {:induction false} OptimumMatchesNothingIffEmpty(outlines: seq<Outline>, headings: seq<Heading>, pb: Problem, p: Path)
    requires |pb.candidates| == |outlines| && AlignmentOf(outlines, headings, pb).Aligned? && Optimal(pb, p)
    ensures AlignmentOf(outlines, headings, pb).matched == map[] <==> p == []
  {
    AlignmentIsOptimumsReport(outlines, headings, pb, p);
    MatchedKeysIsEmpty(outlines, p);
  }

  lemma {:induction false} NoCandidatesMeansOneOptimum(pb: Problem)
    requires forall o :: 0 <= o < |pb.candidates| ==> pb.candidates[o] == []
    ensures OneOptimum(pb) && !TiedOptima(pb)
  {
    forall p: Path | IncreasingMatching(pb, p) ensures p == [] {
      MatchingNeedsCandidate(pb, p);
    }
    assert Optimal(pb, []);
  }

  // ----- A section without a parent ---------------------------------------------------------

  // Chapter A holds chapter B; the text has a heading for B only.
  function HalfTitled(): Source {
    Source("markdown", "pdf", Some([Line(None, Some((1, "B")))]),
           Extracted(Kids([Bookmark("A", Some(1), Kids([Bookmark("B", Some(1), Kids([]))]))])),
           (t: string) => t, (o: nat, h: nat) => 0, (h: Heading, i: SF.Identity) => "", (t: string) => false)
  }

  function HalfOutlines(): seq<Outline> {
    [Outline([0], "A", 1, None, 1, true), Outline([0, 0], "B", 2, Some([0]), 1, false)]
  }

  // Its only section is at level two and has no parent id.
  lemma {:induction false} OrphanBelowTopLevel()
    ensures var r := Reconstruction(HalfTitled());
      r.Ok? && |r.value| == 1 && r.value[0].level == 2 && r.value[0].parent.None?
  {
    var s := HalfTitled();
    HalfScanned();
    HalfAligned();
    var matched: map<Key, nat> := map[[0, 0] := 0];
    var input := InputOf(s, matched);
    HalfEntry(input);
    hide *;
    ReconstructionAligned(s, matched);
  }

  lemma {:induction false} ReconstructionAligned(s: Source, matched: map<Key, nat>)
    requires Readable(s) && HeadingsOf(s) != [] && Outlines(RootsOf(s)).Ok? && Outlines(RootsOf(s)).value != []
    requires matched != map[] && DistinctIds(SF.Entries(InputOf(s, matched)))
    requires var r := AlignmentOf(Outlines(RootsOf(s)).value, HeadingsOf(s), ProblemOf(s)); r.Aligned? && r.matched == matched
    ensures Reconstruction(s) == Ok(SF.Entries(InputOf(s, matched)))
  {
    hide Outlines, AlignmentOf, HeadingsOf, ProblemOf, InputOf, DistinctIds, SF.Entries;
  }

  lemma {:induction false} HalfScanned()
    ensures Readable(HalfTitled()) && HeadingsOf(HalfTitled()) == [Heading("B", 1, 1)]
    ensures Outlines(RootsOf(HalfTitled())) == Ok(HalfOutlines())
  {
    var s := HalfTitled();
    var lines := LinesOf(s);
    assert OpenFence(lines, 0) == None;
    assert Headings(lines, 0) == [];
    var a := RootsOf(s).items[0];
    var b := a.kids.items[0];
    assert [0] + [0] == [0, 0] && [] + [0] == [0];
    assert Flatten(b.kids, 3, Some([0, 0]), [0, 0]) == Ok([]);
    hide Flatten;
    OneBookmark(b, 2, Some([0]), [0], []);
    var inner := HalfOutlines()[1];
    assert Node(b, 2, Some([0]), [0, 0]) == inner && [inner] + [] == [inner] && a.kids == Kids([b]);
    assert Flatten(a.kids, 2, Some([0]), [0]) == Ok([inner]);
    OneBookmark(a, 1, None, [], [inner]);
    assert RootsOf(s) == Kids([a]) && Node(a, 1, None, [0]) == HalfOutlines()[0];
    assert [HalfOutlines()[0]] + [inner] == HalfOutlines();
  }

  lemma {:induction false} OneBookmark(raw: Raw, level: nat, parent: Option<Key>, path: Key, below: seq<Outline>)
    requires Usable(raw) && Flatten(raw.kids, level + 1, Some(path + [0]), path + [0]) == Ok(below)
    ensures Flatten(Kids([raw]), level, parent, path) == Ok([Node(raw, level, parent, path + [0])] + below)
  {
    assert FlattenFirst(Kids([raw]), 0, level, parent, path) == Ok([]);
    assert [] + [Node(raw, level, parent, path + [0])] + below == [Node(raw, level, parent, path + [0])] + below;
  }

  lemma {:induction false} HalfAligned()
    ensures var s := HalfTitled(); var r := AlignmentOf(HalfOutlines(), HeadingsOf(s), ProblemOf(s));
      r.Aligned? && r.matched == map[[0, 0] := 0]
  {
    var s := HalfTitled();
    HalfScanned();
    var pb, os, hs := ProblemOf(s), HalfOutlines(), HeadingsOf(s);
    var p: Path := [(1, 0)];
    HalfOptimum(pb);
    assert OneOptimum(pb);
    hide *;
    AlignmentIsUniqueOptimum(os, hs, pb);
    AlignmentIsOptimumsReport(os, hs, pb, p);
    HalfReport(hs);
  }

  lemma {:induction false} HalfReport(headings: seq<Heading>)
    ensures var r := Report(HalfOutlines(), headings, [[(1, 0)]]); r.Aligned? && r.matched == map[[0, 0] := 0]
  {
    var os, p: Path := HalfOutlines(), [(1, 0)];
    assert MatchedKeys(os, p, 0) == map[];
    assert MatchedKeys(os, p, 1) == map[[0, 0] := 0];
    hide MatchedKeys, Unmatched;
  }

  lemma {:induction false} HalfOptimum(pb: Problem)
    requires pb == ProblemOf(HalfTitled())
    ensures Optimal(pb, [(1, 0)]) && forall q :: Optimal(pb, q) ==> q == [(1, 0)]
  {
    HalfCandidates(pb);
    var p: Path := [(1, 0)];
    forall q: Path | IncreasingMatching(pb, q) ensures q == [] || q == p {
      OnlyOnePair(pb, q);
    }
    assert IncreasingMatching(pb, p);
    assert PathScore(pb, p).matches == 1 && PathScore(pb, []).matches == 0;
    hide IncreasingMatching, PathScore;
  }

  lemma {:induction false} OnlyOnePair(pb: Problem, q: Path)
    requires |pb.candidates| == 2 && pb.candidates[0] == [] && pb.candidates[1] == [0] && IncreasingMatching(pb, q)
    ensures q == [] || q == [(1, 0)]
  {
    hide IncreasingMatching;
    forall k | 0 <= k < |q| ensures q[k] == (1, 0) {
      PairFits(pb, q, k);
    }
    if |q| > 1 {
      PairsAscend(pb, q);
    }
  }

  lemma {:induction false} PairFits(pb: Problem, q: Path, k: nat)
    requires IncreasingMatching(pb, q) && k < |q|
    ensures q[k].0 < |pb.candidates| && q[k].1 in pb.candidates[q[k].0]
  {
  }

  lemma {:induction false} PairsAscend(pb: Problem, q: Path)
    requires IncreasingMatching(pb, q) && |q| > 1
    ensures q[0].0 < q[1].0
  {
  }

  lemma {:induction false} HalfCandidates(pb: Problem)
    requires pb == ProblemOf(HalfTitled())
    ensures |pb.candidates| == 2 && pb.candidates[0] == [] && pb.candidates[1] == [0]
  {
    HalfScanned();
    var s := HalfTitled();
    var hs := HeadingsOf(s);
    hide Outlines, Headings;
    assert CandidatesAmong("A", hs, s.normalized, 0) == [] && CandidatesAmong("B", hs, s.normalized, 0) == [];
  }

  lemma {:induction false} HalfEntry(input: SF.Input)
    requires input == InputOf(HalfTitled(), map[[0, 0] := 0])
    ensures var es := SF.Entries(input); |es| == 1 && es[0].level == 2 && es[0].parent.None? && DistinctIds(es)
  {
    HalfScanned();
    var o := HalfOutlines()[1];
    hide Outlines, Headings, HeadingsOf;
    assert SF.ByHeading(input, 0) == map[];
    assert SF.ByHeading(input, 1) == map[];
    assert SF.Nodes(input) == map[0 := o];
    assert SF.IdByKey(input, 0) == map[];
    assert SF.IdByKey(input, 1).Keys == {[0, 0]};
    hide SF.NextLine, SF.NextPage, SF.ByHeading;
  }
}
