// Where a full-text search looks inside a sectioned document: section parents,
// the nested-section text to skip, and how many occurrences to keep.
module SectionSearch {
  import opened Common
  import opened TermSpans

  // ----- Section parents -----------------------------------------------------

  // The nearest section before i that is strictly shallower.
  ghost predicate IsNearestShallower(levels: seq<nat>, i: nat, parent: Option<nat>)
    requires i < |levels|
  {
    match parent
    case Some(p) => p < i && levels[p] < levels[i] && forall k :: p < k < i ==> levels[k] >= levels[i]
    case None => forall k :: 0 <= k < i ==> levels[k] >= levels[i]
  }

  // Every section so far is on the stack or has a stacked successor no deeper than it.
  ghost predicate Stacked(levels: seq<nat>, active: seq<nat>, n: nat)
    requires n <= |levels|
  {
    && (forall a :: 0 <= a < |active| ==> active[a] < n)
    && (forall a, b :: 0 <= a < b < |active| ==> active[a] < active[b] && levels[active[a]] < levels[active[b]])
    && (forall k :: 0 <= k < n ==> Shadowed(levels, active, n, k))
  }

  ghost predicate Shadowed(levels: seq<nat>, active: seq<nat>, n: nat, k: nat)
    requires k < n <= |levels|
  {
    exists a :: 0 <= a < |active| && k <= active[a] < n && levels[active[a]] <= levels[k]
  }

  method SectionParents(levels: seq<nat>) returns (parents: seq<Option<nat>>)
    ensures |parents| == |levels|
    ensures forall i :: 0 <= i < |levels| ==> IsNearestShallower(levels, i, parents[i])
  {
    parents := [];
    var active: seq<nat> := [];
    for index := 0 to |levels|
      invariant |parents| == index && Stacked(levels, active, index)
      invariant forall i :: 0 <= i < index ==> IsNearestShallower(levels, i, parents[i])
    {
      ghost var before := active;
      while active != [] && levels[active[|active| - 1]] >= levels[index]
        invariant |active| <= |before| && active == before[..|active|]
        invariant forall a :: |active| <= a < |before| ==> levels[before[a]] >= levels[index]
      {
        active := active[..|active| - 1];
      }
      var parent := if active != [] then Some(active[|active| - 1]) else None;
      TopIsNearest(levels, before, active, index);
      parents := parents + [parent];
      PushKeepsStacked(levels, before, active, index);
      active := active + [index];
    }
  }

  lemma {:induction false} TopIsNearest(levels: seq<nat>, before: seq<nat>, active: seq<nat>, index: nat)
    requires index < |levels| && Stacked(levels, before, index)
    requires |active| <= |before| && active == before[..|active|]
    requires forall a :: |active| <= a < |before| ==> levels[before[a]] >= levels[index]
    requires active == [] || levels[active[|active| - 1]] < levels[index]
    ensures IsNearestShallower(levels, index, if active != [] then Some(active[|active| - 1]) else None)
  {
    forall k | 0 <= k < index && (active == [] || active[|active| - 1] < k) ensures levels[k] >= levels[index] {
      assert Shadowed(levels, before, index, k);
      var a :| 0 <= a < |before| && k <= before[a] < index && levels[before[a]] <= levels[k];
      assert a >= |active|;
    }
  }

  lemma {:induction false} PushKeepsStacked(levels: seq<nat>, before: seq<nat>, active: seq<nat>, index: nat)
    requires index < |levels| && Stacked(levels, before, index)
    requires |active| <= |before| && active == before[..|active|]
    requires forall a :: |active| <= a < |before| ==> levels[before[a]] >= levels[index]
    requires active == [] || levels[active[|active| - 1]] < levels[index]
    ensures Stacked(levels, active + [index], index + 1)
  {
    var pushed := active + [index];
    forall a, b | 0 <= a < b < |pushed| ensures pushed[a] < pushed[b] && levels[pushed[a]] < levels[pushed[b]] {
      if b < |active| {
        assert active[a] == before[a] && active[b] == before[b];
      } else {
        assert active[a] == before[a] && active[|active| - 1] == before[|active| - 1];
      }
    }
    assert pushed[|active|] == index;
    assert Shadowed(levels, pushed, index + 1, index);
    var next := index + 1;
    forall k | 0 <= k < index ensures Shadowed(levels, pushed, next, k) {
      assert Shadowed(levels, before, index, k);
      var a :| 0 <= a < |before| && k <= before[a] < index && levels[before[a]] <= levels[k];
      if a < |active| {
        assert pushed[a] == before[a];
      }
    }
  }

  // ----- Finding a child's text in its parent's ------------------------------

  datatype Token = Token(text: string, start: nat, end: nat)

  type Range = (nat, nat)

  // Tokens are non-empty runs in text order.
  ghost predicate TokensInOrder(tokens: seq<Token>) {
    && (forall i :: 0 <= i < |tokens| ==> tokens[i].start < tokens[i].end)
    && (forall i, j :: 0 <= i < j < |tokens| ==> tokens[i].end <= tokens[j].start)
  }

  // The window of |words| tokens at index spells the words and ends by end.
  predicate WindowAt(tokens: seq<Token>, words: seq<string>, end: nat, index: int) {
    && words != [] && 0 <= index && index + |words| <= |tokens|
    && tokens[index + |words| - 1].end <= end
    && forall k :: 0 <= k < |words| ==> tokens[index + k].text == words[k]
  }

  // The last such window, if there is one.
  ghost predicate IsLastWindow(tokens: seq<Token>, words: seq<string>, end: nat, r: Option<nat>) {
    match r
    case Some(index) => WindowAt(tokens, words, end, index) && forall i :: WindowAt(tokens, words, end, i) ==> i <= index
    case None => forall i :: !WindowAt(tokens, words, end, i)
  }

  method FindWindow(tokens: seq<Token>, words: seq<string>, end: nat) returns (r: Option<nat>)
    ensures IsLastWindow(tokens, words, end, r)
  {
    if tokens == [] || words == [] {
      return None;
    }
    var width := |words|;
    var index := |tokens| - width;
    while index >= 0
      invariant index <= |tokens| - width
      invariant forall i :: WindowAt(tokens, words, end, i) ==> i <= index
      decreases index
    {
      if tokens[index + width - 1].end > end {
        index := index - 1;
        continue;
      }
      var same := SameWords(tokens, words, index);
      if same {
        return Some(index);
      }
      index := index - 1;
    }
    return None;
  }

  predicate SameWords(tokens: seq<Token>, words: seq<string>, index: nat)
    requires index + |words| <= |tokens|
  {
    forall k :: 0 <= k < |words| ==> tokens[index + k].text == words[k]
  }

  // The last window as a function; FindWindow computes it.
  function LastWindow(tokens: seq<Token>, words: seq<string>, end: nat, n: nat): (r: Option<nat>)
    requires n <= |tokens| + 1
    ensures r.Some? ==> r.value < n && WindowAt(tokens, words, end, r.value)
    ensures forall i :: WindowAt(tokens, words, end, i) && i < n ==> r.Some? && i <= r.value
  {
    if n == 0 then None
    else if WindowAt(tokens, words, end, n - 1) then Some(n - 1)
    else LastWindow(tokens, words, end, n - 1)
  }

  function ChildRange(tokens: seq<Token>, words: seq<string>, end: nat): Option<Range> {
    var index := LastWindow(tokens, words, end, |tokens| + 1);
    if index.None? then None
    else Some((tokens[index.value].start, tokens[index.value + |words| - 1].end))
  }

  method WhitespaceEquivalentRange(tokens: seq<Token>, words: seq<string>, end: nat) returns (r: Option<Range>)
    ensures r == ChildRange(tokens, words, end)
  {
    var index := FindWindow(tokens, words, end);
    assert index == LastWindow(tokens, words, end, |tokens| + 1);
    if index.None? {
      return None;
    }
    return Some((tokens[index.value].start, tokens[index.value + |words| - 1].end));
  }

  // ----- The ranges to skip ---------------------------------------------------

  // The ranges found for the first n children, working backwards from cursor.
  function Exclusions(tokens: seq<Token>, children: seq<seq<string>>, n: nat, cursor: nat): seq<Range>
    requires n <= |children|
  {
    if n == 0 then []
    else
      var r := ChildRange(tokens, children[n - 1], cursor);
      if r.None? then Exclusions(tokens, children, n - 1, cursor)
      else Exclusions(tokens, children, n - 1, r.value.0) + [r.value]
  }

  function Reversed(rs: seq<Range>): seq<Range> {
    if rs == [] then [] else Reversed(rs[1..]) + [rs[0]]
  }

  lemma {:induction false} ReversedAppend(rs: seq<Range>, r: Range)
    ensures Reversed(rs + [r]) == [r] + Reversed(rs)
  {
    if rs != [] {
      assert (rs + [r])[1..] == rs[1..] + [r];
      ReversedAppend(rs[1..], r);
    }
  }

  method ExcludedRanges(tokens: seq<Token>, children: seq<seq<string>>, length: nat) returns (ranges: seq<Range>)
    ensures ranges == Exclusions(tokens, children, |children|, length)
  {
    hide ChildRange, Exclusions, Reversed;
    NothingExcludedYet(tokens, children, length);
    var exclusions: seq<Range> := [];
    var cursor: nat := length;
    var n: nat := |children|;
    while n > 0
      invariant n <= |children|
      invariant Exclusions(tokens, children, |children|, length) == Exclusions(tokens, children, n, cursor) + Reversed(exclusions)
    {
      n := n - 1;
      var range := WhitespaceEquivalentRange(tokens, children[n], cursor);
      ExclusionsUnfold(tokens, children, n + 1, cursor);
      if range.Some? {
        ReversedAppend(exclusions, range.value);
        exclusions := exclusions + [range.value];
        cursor := range.value.0;
      }
    }
    ExclusionsUnfold(tokens, children, 0, cursor);
    ranges := Reversed(exclusions);
  }

  lemma {:induction false} NothingExcludedYet(tokens: seq<Token>, children: seq<seq<string>>, length: nat)
    ensures var all := Exclusions(tokens, children, |children|, length); all == all + Reversed([])
  {
  }

  lemma {:induction false} ExclusionsUnfold(tokens: seq<Token>, children: seq<seq<string>>, n: nat, cursor: nat)
    requires n <= |children|
    ensures n == 0 ==> Exclusions(tokens, children, n, cursor) == []
    ensures n > 0 ==>
      var r := ChildRange(tokens, children[n - 1], cursor);
      Exclusions(tokens, children, n, cursor) ==
        if r.None? then Exclusions(tokens, children, n - 1, cursor)
        else Exclusions(tokens, children, n - 1, r.value.0) + [r.value]
  {
  }

  ghost predicate AscendingDisjoint(rs: seq<Range>, cursor: nat) {
    && (forall i :: 0 <= i < |rs| ==> rs[i].0 < rs[i].1 <= cursor)
    && (forall i, j :: 0 <= i < j < |rs| ==> rs[i].1 <= rs[j].0)
  }

  lemma {:induction false} ExclusionsAreDisjoint(tokens: seq<Token>, children: seq<seq<string>>, n: nat, cursor: nat)
    requires TokensInOrder(tokens) && n <= |children|
    ensures AscendingDisjoint(Exclusions(tokens, children, n, cursor), cursor)
  {
    hide TokensInOrder, Exclusions, ChildRange;
    ExclusionsUnfold(tokens, children, n, cursor);
    if n > 0 {
      var r := ChildRange(tokens, children[n - 1], cursor);
      if r.None? {
        ExclusionsAreDisjoint(tokens, children, n - 1, cursor);
      } else {
        ExclusionsAreDisjoint(tokens, children, n - 1, r.value.0);
        ChildRangeIsProper(tokens, children[n - 1], cursor);
        hide AscendingDisjoint;
        AppendKeepsDisjoint(Exclusions(tokens, children, n - 1, r.value.0), r.value, cursor);
      }
    }
  }

  lemma {:induction false} ChildRangeIsProper(tokens: seq<Token>, words: seq<string>, cursor: nat)
    requires TokensInOrder(tokens) && ChildRange(tokens, words, cursor).Some?
    ensures var r := ChildRange(tokens, words, cursor).value; r.0 < r.1 <= cursor
  {
    var i := LastWindow(tokens, words, cursor, |tokens| + 1).value;
    hide LastWindow;
    assert tokens[i].start < tokens[i].end <= tokens[i + |words| - 1].end;
  }

  lemma {:induction false} AppendKeepsDisjoint(rs: seq<Range>, r: Range, cursor: nat)
    requires AscendingDisjoint(rs, r.0) && r.0 < r.1 <= cursor
    ensures AscendingDisjoint(rs + [r], cursor)
  {
  }

  // The first n children's texts stand in the parent's, in order and apart:
  // child k at window places[k], the last one ending by cursor.
  ghost predicate Embedded(tokens: seq<Token>, children: seq<seq<string>>, places: seq<nat>, n: nat, cursor: nat) {
    && n <= |children| && n <= |places|
    && (forall k :: 0 <= k < n ==> children[k] != [] && WindowAt(tokens, children[k], cursor, places[k]))
    && (forall k :: 0 <= k < n - 1 ==> places[k] + |children[k]| <= places[k + 1])
  }

  // If there is any way to embed all children in order, the backward search finds
  // a range for every child.
  lemma {:induction false} EmbeddedChildrenAreAllExcluded(tokens: seq<Token>, children: seq<seq<string>>,
                                                          places: seq<nat>, n: nat, cursor: nat)
    requires TokensInOrder(tokens) && Embedded(tokens, children, places, n, cursor)
    ensures |Exclusions(tokens, children, n, cursor)| == n
    decreases n
  {
    if n > 0 {
      hide ChildRange, TokensInOrder;
      ChildIsFound(tokens, children[n - 1], cursor, places[n - 1]);
      var next := ChildRange(tokens, children[n - 1], cursor).value.0;
      RestIsEmbedded(tokens, children, places, n, cursor, next);
      EmbeddedChildrenAreAllExcluded(tokens, children, places, n - 1, next);
    }
  }

  lemma {:induction false} RestIsEmbedded(tokens: seq<Token>, children: seq<seq<string>>, places: seq<nat>, n: nat, cursor: nat, next: nat)
    requires TokensInOrder(tokens) && n > 0 && Embedded(tokens, children, places, n, cursor)
    requires places[n - 1] < |tokens| && tokens[places[n - 1]].start <= next
    ensures Embedded(tokens, children, places, n - 1, next)
  {
    forall k | 0 <= k < n - 1 ensures children[k] != [] && WindowAt(tokens, children[k], next, places[k]) {
      PlacesAreApart(tokens, children, places, n, cursor, k);
    }
  }

  lemma {:induction false} ChildIsFound(tokens: seq<Token>, words: seq<string>, cursor: nat, place: nat)
    requires TokensInOrder(tokens) && WindowAt(tokens, words, cursor, place)
    ensures var r := ChildRange(tokens, words, cursor); r.Some? && tokens[place].start <= r.value.0
  {
    var index := LastWindow(tokens, words, cursor, |tokens| + 1).value;
    if place < index {
      assert tokens[place].end <= tokens[index].start;
    }
  }

  lemma {:induction false} PlacesAreApart(tokens: seq<Token>, children: seq<seq<string>>, places: seq<nat>,
                                          n: nat, cursor: nat, k: nat)
    requires TokensInOrder(tokens) && Embedded(tokens, children, places, n, cursor) && k < n - 1
    ensures places[k] + |children[k]| <= places[n - 1]
    ensures tokens[places[k] + |children[k]| - 1].end <= tokens[places[n - 1]].start
    decreases n - k
  {
    assert children[k + 1] != [] && WindowAt(tokens, children[n - 1], cursor, places[n - 1]);
    if k + 1 < n - 1 {
      PlacesAreApart(tokens, children, places, n, cursor, k + 1);
    }
  }

  // ----- Occurrences ----------------------------------------------------------

  predicate ContainedInAny(start: nat, end: nat, ranges: seq<Range>) {
    exists r :: r in ranges && r.0 <= start && end <= r.1
  }

  function Outside(spans: seq<Span>, ranges: seq<Range>, n: nat): seq<Span>
    requires n <= |spans|
  {
    if n == 0 then []
    else if ContainedInAny(spans[n - 1].start, spans[n - 1].end, ranges) then Outside(spans, ranges, n - 1)
    else Outside(spans, ranges, n - 1) + [spans[n - 1]]
  }

  ghost predicate SpansAscend(spans: seq<Span>) {
    forall i, j :: 0 <= i < j < |spans| ==> Precedes(spans[i].start, spans[i].end, spans[j].start, spans[j].end)
  }

  lemma {:induction false} OutsideIsExact(spans: seq<Span>, ranges: seq<Range>, n: nat)
    requires n <= |spans| && SpansAscend(spans)
    ensures forall s :: s in Outside(spans, ranges, n) <==> s in spans[..n] && !ContainedInAny(s.start, s.end, ranges)
    ensures SpansAscend(Outside(spans, ranges, n))
  {
    if n > 0 {
      OutsideIsExact(spans, ranges, n - 1);
      var before, last := Outside(spans, ranges, n - 1), spans[n - 1];
      assert spans[..n] == spans[..n - 1] + [last];
      assert Outside(spans, ranges, n) == before || Outside(spans, ranges, n) == before + [last];
      forall s | s in before ensures Precedes(s.start, s.end, last.start, last.end) {
        var i :| 0 <= i < n - 1 && spans[..n - 1][i] == s;
        assert spans[i] == s;
      }
      hide ContainedInAny, Precedes;
      LaterSpanAscends(before, last);
    }
  }

  lemma {:induction false} LaterSpanAscends(spans: seq<Span>, last: Span)
    requires SpansAscend(spans) && forall s :: s in spans ==> Precedes(s.start, s.end, last.start, last.end)
    ensures SpansAscend(spans + [last])
  {
    var more := spans + [last];
    hide Precedes;
    forall i, j | 0 <= i < j < |more| ensures Precedes(more[i].start, more[i].end, more[j].start, more[j].end) {
      assert more[i] == spans[i] && spans[i] in spans;
    }
  }

  // The matches not inside a skipped range, each once and in order.
  ghost predicate AreOccurrences(text: Text, ranges: seq<Range>, occurrences: seq<Span>) {
    && (forall t, s: nat, e: nat :: 0 <= t < |text.patterns| && Matches(text.patterns[t], s, e) ==>
          (Lists(occurrences, s, e) <==> !ContainedInAny(s, e, ranges)))
    && SpansAscend(occurrences)
    && (forall o :: o in occurrences ==> o.terms == TermsAt(text.patterns, o.start, o.end, |text.patterns|) && o.terms != [])
  }

  method LocationOccurrences(text: Text, ranges: seq<Range>) returns (occurrences: seq<Span>)
    requires WellFormed(text.patterns, text.length)
    ensures AreOccurrences(text, ranges, occurrences)
  {
    var patterns := text.patterns;
    var spans := IterTermSpans(patterns, text.length);
    occurrences := [];
    for n := 0 to |spans|
      invariant occurrences == Outside(spans, ranges, n)
    {
      if ContainedInAny(spans[n].start, spans[n].end, ranges) {
        continue;
      }
      occurrences := occurrences + [spans[n]];
    }
    OutsideIsExact(spans, ranges, |spans|);
    assert spans[..|spans|] == spans;
    hide Outside, TermsAt;
    forall j | 0 <= j < |occurrences|
      ensures !ContainedInAny(occurrences[j].start, occurrences[j].end, ranges)
    {
      assert occurrences[j] in occurrences;
    }
    forall t, s: nat, e: nat | 0 <= t < |patterns| && Matches(patterns[t], s, e)
      ensures Lists(occurrences, s, e) <==> !ContainedInAny(s, e, ranges)
    {
      assert Lists(spans, s, e);
      var i :| 0 <= i < |spans| && spans[i].start == s && spans[i].end == e;
      if !ContainedInAny(s, e, ranges) {
        assert spans[i] in occurrences;
        var j :| 0 <= j < |occurrences| && occurrences[j] == spans[i];
      }
    }
  }

  // ----- A document's locations -------------------------------------------------

  // A text, as the search terms see it.
  datatype Text = Text(patterns: seq<Pattern>, length: nat)

  // tokens are those of the section's search text, words those of its own projection,
  // title and text, as a parent may contain it.
  datatype Section = Section(level: nat, text: Text, tokens: seq<Token>, words: seq<string>)

  datatype Document = Document(pages: seq<Text>, sections: seq<Section>, html: bool)

  datatype Location = Location(text: Text, excluded: seq<Range>)

  function Levels(sections: seq<Section>): (levels: seq<nat>)
    ensures |levels| == |sections| && forall i :: 0 <= i < |sections| ==> levels[i] == sections[i].level
  {
    seq(|sections|, i requires 0 <= i < |sections| => sections[i].level)
  }

  // The sections among the first n whose nearest shallower section is i.
  ghost function Children(levels: seq<nat>, i: nat, n: nat): seq<nat>
    requires n <= |levels|
  {
    if n == 0 then []
    else if IsNearestShallower(levels, n - 1, Some(i)) then Children(levels, i, n - 1) + [n - 1]
    else Children(levels, i, n - 1)
  }

  ghost predicate AscendingBelow(cs: seq<nat>, n: nat) {
    && (forall a :: 0 <= a < |cs| ==> cs[a] < n)
    && (forall a, b :: 0 <= a < b < |cs| ==> cs[a] < cs[b])
  }

  lemma {:induction false} ChildrenAreExact(levels: seq<nat>, i: nat, n: nat)
    requires n <= |levels|
    ensures forall j: nat :: j in Children(levels, i, n) <==> j < n && IsNearestShallower(levels, j, Some(i))
    ensures AscendingBelow(Children(levels, i, n), n)
  {
    if n > 0 {
      ChildrenAreExact(levels, i, n - 1);
      var before := Children(levels, i, n - 1);
      assert AscendingBelow(before + [n - 1], n) && AscendingBelow(before, n);
    }
  }

  function WordsOf(sections: seq<Section>, children: seq<nat>): (words: seq<seq<string>>)
    requires forall a :: 0 <= a < |children| ==> children[a] < |sections|
    ensures |words| == |children|
  {
    seq(|children|, a requires 0 <= a < |children| => sections[children[a]].words)
  }

  // The words of section i's direct children.
  ghost function ChildWords(d: Document, i: nat): seq<seq<string>>
    requires i < |d.sections|
  {
    var levels := Levels(d.sections);
    ChildrenAreExact(levels, i, |levels|);
    WordsOf(d.sections, Children(levels, i, |levels|))
  }

  // The ranges of section i in which its direct children stand; only HTML sections
  // contain their children's texts.
  ghost function SectionRanges(d: Document, i: nat): seq<Range>
    requires i < |d.sections|
  {
    var words := ChildWords(d, i);
    if d.html then Exclusions(d.sections[i].tokens, words, |words|, d.sections[i].text.length) else []
  }

  // Every section with its ranges, or every page if there are no sections.
  ghost function LocationsOf(d: Document): (ls: seq<Location>)
    ensures d.sections == [] ==> |ls| == |d.pages| && forall k :: 0 <= k < |ls| ==> ls[k] == Location(d.pages[k], [])
    ensures d.sections != [] ==>
      |ls| == |d.sections| && forall k :: 0 <= k < |ls| ==> ls[k] == Location(d.sections[k].text, SectionRanges(d, k))
  {
    if d.sections == [] then seq(|d.pages|, k requires 0 <= k < |d.pages| => Location(d.pages[k], []))
    else seq(|d.sections|, k requires 0 <= k < |d.sections| => Location(d.sections[k].text, SectionRanges(d, k)))
  }

  // The same children, from the parents found with the stack.
  function Grouped(parents: seq<Option<nat>>, i: nat, n: nat): (children: seq<nat>)
    requires n <= |parents|
    ensures forall j :: j in children ==> j < n
  {
    if n == 0 then []
    else if parents[n - 1] == Some(i) then Grouped(parents, i, n - 1) + [n - 1]
    else Grouped(parents, i, n - 1)
  }

  method ChildrenByParent(parents: seq<Option<nat>>) returns (children: map<nat, seq<nat>>)
    ensures forall i :: Grouped(parents, i, |parents|) == if i in children then children[i] else []
  {
    children := map[];
    for n := 0 to |parents|
      invariant forall i :: Grouped(parents, i, n) == if i in children then children[i] else []
    {
      if parents[n].Some? {
        var parent := parents[n].value;
        children := children[parent := (if parent in children then children[parent] else []) + [n]];
      }
    }
  }

  lemma {:induction false} NearestIsUnique(levels: seq<nat>, j: nat, p: Option<nat>, q: Option<nat>)
    requires j < |levels| && IsNearestShallower(levels, j, p) && IsNearestShallower(levels, j, q)
    ensures p == q
  {
  }

  lemma {:induction false} GroupedAreChildren(levels: seq<nat>, parents: seq<Option<nat>>, i: nat, n: nat)
    requires n <= |levels| == |parents| && forall j :: 0 <= j < |levels| ==> IsNearestShallower(levels, j, parents[j])
    ensures Grouped(parents, i, n) == Children(levels, i, n)
  {
    if n > 0 {
      GroupedAreChildren(levels, parents, i, n - 1);
      if IsNearestShallower(levels, n - 1, Some(i)) {
        NearestIsUnique(levels, n - 1, parents[n - 1], Some(i));
      }
    }
  }

  method SearchLocations(d: Document) returns (locations: seq<Location>)
    ensures locations == LocationsOf(d)
  {
    hide SectionRanges;
    locations := [];
    if d.sections == [] {
      for k := 0 to |d.pages|
        invariant |locations| == k && forall i :: 0 <= i < k ==> locations[i] == Location(d.pages[i], [])
      {
        locations := locations + [Location(d.pages[k], [])];
      }
      return;
    }
    var children := map[];
    if d.html {
      children := SectionChildren(d.sections);
    }
    for k := 0 to |d.sections|
      invariant |locations| == k
      invariant forall i :: 0 <= i < k ==> locations[i] == Location(d.sections[i].text, SectionRanges(d, i))
    {
      var excluded := SectionExclusions(d, k, if k in children then children[k] else []);
      locations := locations + [Location(d.sections[k].text, excluded)];
    }
  }

  // Each section's direct children, those with none left out.
  method SectionChildren(sections: seq<Section>) returns (children: map<nat, seq<nat>>)
    ensures var levels := Levels(sections);
      forall i: nat :: Children(levels, i, |levels|) == if i in children then children[i] else []
  {
    var levels := Levels(sections);
    var parents := SectionParents(levels);
    children := ChildrenByParent(parents);
    forall i: nat ensures Children(levels, i, |levels|) == if i in children then children[i] else [] {
      GroupedAreChildren(levels, parents, i, |levels|);
    }
  }

  method SectionExclusions(d: Document, k: nat, children: seq<nat>) returns (ranges: seq<Range>)
    requires k < |d.sections|
    requires children == if d.html then Children(Levels(d.sections), k, |d.sections|) else []
    ensures ranges == SectionRanges(d, k)
  {
    ChildrenAreExact(Levels(d.sections), k, |d.sections|);
    var words := WordsOf(d.sections, children);
    ranges := ExcludedRanges(d.sections[k].tokens, words, d.sections[k].text.length);
  }

  // A section's ranges are non-empty, ascending, disjoint and inside its text. Only HTML
  // sections have any.
  lemma {:induction false} SectionRangesAreDisjoint(d: Document, i: nat)
    requires i < |d.sections| && TokensInOrder(d.sections[i].tokens)
    ensures AscendingDisjoint(SectionRanges(d, i), d.sections[i].text.length)
    ensures !d.html ==> SectionRanges(d, i) == []
  {
    var words := ChildWords(d, i);
    ExclusionsAreDisjoint(d.sections[i].tokens, words, |words|, d.sections[i].text.length);
  }

  // The occurrences of a document, location by location.
  method DocumentOccurrences(d: Document) returns (found: seq<seq<Span>>)
    requires forall p :: p in d.pages ==> WellFormed(p.patterns, p.length)
    requires forall s :: s in d.sections ==> WellFormed(s.text.patterns, s.text.length)
    ensures var ls := LocationsOf(d);
      |found| == |ls| && forall k :: 0 <= k < |ls| ==> AreOccurrences(ls[k].text, ls[k].excluded, found[k])
  {
    var locations := SearchLocations(d);
    forall k | 0 <= k < |locations| ensures WellFormed(locations[k].text.patterns, locations[k].text.length) {
      assert d.sections == [] ==> d.pages[k] in d.pages;
      assert d.sections != [] ==> d.sections[k] in d.sections;
    }
    found := [];
    hide AreOccurrences, LocationsOf, WellFormed;
    for k := 0 to |locations|
      invariant |found| == k
      invariant forall i :: 0 <= i < k ==> AreOccurrences(locations[i].text, locations[i].excluded, found[i])
    {
      var occurrences := LocationOccurrences(locations[k].text, locations[k].excluded);
      found := found + [occurrences];
    }
  }

  // ----- What the ranges span ---------------------------------------------------

  // found[k] is the window found for child k, if any. The search for it ends at the start
  // of the nearest later window found, or of everything at end.
  function CursorAfter(tokens: seq<Token>, found: seq<Option<nat>>, k: nat, end: nat): nat
    requires k < |found|
    decreases |found| - k
  {
    if k + 1 == |found| then end
    else if found[k + 1].Some? && found[k + 1].value < |tokens| then tokens[found[k + 1].value].start
    else CursorAfter(tokens, found, k + 1, end)
  }

  // Each child is found at the last window of its words that ends by its cursor, and not
  // found only if there is none.
  ghost predicate FoundBackwards(tokens: seq<Token>, children: seq<seq<string>>, found: seq<Option<nat>>, end: nat) {
    |found| == |children| && forall k :: 0 <= k < |found| ==> FoundAt(tokens, children, found, k, end)
  }

  ghost predicate FoundAt(tokens: seq<Token>, children: seq<seq<string>>, found: seq<Option<nat>>, k: nat, end: nat)
    requires k < |found| == |children|
  {
    IsLastWindow(tokens, children[k], CursorAfter(tokens, found, k, end), found[k])
  }

  // From the first token's start to the last token's end of a window.
  ghost predicate Spans(tokens: seq<Token>, words: seq<string>, index: nat, r: Range) {
    && words != [] && index + |words| <= |tokens|
    && r.0 == tokens[index].start && r.1 == tokens[index + |words| - 1].end
  }

  // The ranges are those of the children found, in order: the j-th is that of child at[j].
  ghost predicate RangesOfFound(tokens: seq<Token>, children: seq<seq<string>>, found: seq<Option<nat>>, rs: seq<Range>, at: seq<nat>)
    requires |found| == |children|
  {
    && |at| == |rs| && (forall i, j :: 0 <= i < j < |at| ==> at[i] < at[j])
    && (forall j :: 0 <= j < |at| ==> RangeOfFound(tokens, children, found, rs[j], at[j]))
    && (forall k :: 0 <= k < |found| && found[k].Some? ==> k in at)
  }

  ghost predicate RangeOfFound(tokens: seq<Token>, children: seq<seq<string>>, found: seq<Option<nat>>, r: Range, k: nat)
    requires |found| == |children|
  {
    k < |found| && found[k].Some? && Spans(tokens, children[k], found[k].value, r)
  }

  lemma {:induction false} ChildRangeSpans(tokens: seq<Token>, words: seq<string>, end: nat) returns (index: Option<nat>)
    ensures IsLastWindow(tokens, words, end, index)
    ensures ChildRange(tokens, words, end).Some? <==> index.Some?
    ensures index.Some? ==> Spans(tokens, words, index.value, ChildRange(tokens, words, end).value)
  {
    index := LastWindow(tokens, words, end, |tokens| + 1);
  }

  lemma {:induction false} ExclusionsSpanChildren(tokens: seq<Token>, children: seq<seq<string>>, cursor: nat)
    returns (found: seq<Option<nat>>, at: seq<nat>)
    ensures FoundBackwards(tokens, children, found, cursor) && |found| == |children|
    ensures RangesOfFound(tokens, children, found, Exclusions(tokens, children, |children|, cursor), at)
  {
    hide *;
    if children == [] {
      ExclusionsUnfold(tokens, children, 0, cursor);
      found, at := [], [];
      NothingFound(tokens, cursor);
    } else {
      var init, words := children[..|children| - 1], children[|children| - 1];
      var before, places := ExclusionsSpanChildren(tokens, init, CursorBefore(tokens, words, cursor));
      found, at := ExclusionsOfOneMore(tokens, init, words, cursor, before, places);
      assert children == init + [words];
    }
  }

  // Where the search for the children before this one ends.
  function CursorBefore(tokens: seq<Token>, words: seq<string>, cursor: nat): nat {
    var r := ChildRange(tokens, words, cursor);
    if r.Some? then r.value.0 else cursor
  }

  lemma {:induction false} ExclusionsOfOneMore(tokens: seq<Token>, init: seq<seq<string>>, words: seq<string>, cursor: nat,
                                               before: seq<Option<nat>>, places: seq<nat>)
    returns (found: seq<Option<nat>>, at: seq<nat>)
    requires FoundBackwards(tokens, init, before, CursorBefore(tokens, words, cursor)) && |before| == |init|
    requires RangesOfFound(tokens, init, before, Exclusions(tokens, init, |init|, CursorBefore(tokens, words, cursor)), places)
    ensures FoundBackwards(tokens, init + [words], found, cursor) && |found| == |init| + 1
    ensures RangesOfFound(tokens, init + [words], found, Exclusions(tokens, init + [words], |init| + 1, cursor), at)
  {
    hide FoundBackwards, RangesOfFound, Exclusions, ChildRange, Spans, IsLastWindow;
    var children, next, r := init + [words], CursorBefore(tokens, words, cursor), ChildRange(tokens, words, cursor);
    ExclusionsUnfold(tokens, children, |init| + 1, cursor);
    ExclusionsOfPrefix(tokens, init, [words], |init|, next);
    var last := ChildRangeSpans(tokens, words, cursor);
    SpanStartsThere(tokens, words, last, r);
    found, at := before + [last], if last.Some? then places + [|before|] else places;
    OneMoreChildFound(tokens, init, before, words, last, cursor, next);
    OneMoreRange(tokens, init, before, Exclusions(tokens, init, |init|, next), places, words, last, r);
  }

  lemma {:induction false} ExclusionsOfPrefix(tokens: seq<Token>, a: seq<seq<string>>, b: seq<seq<string>>, n: nat, cursor: nat)
    requires n <= |a|
    ensures Exclusions(tokens, a + b, n, cursor) == Exclusions(tokens, a, n, cursor)
  {
    ExclusionsUnfold(tokens, a, n, cursor);
    ExclusionsUnfold(tokens, a + b, n, cursor);
    hide Exclusions, ChildRange;
    if n > 0 {
      var r := ChildRange(tokens, a[n - 1], cursor);
      ExclusionsOfPrefix(tokens, a, b, n - 1, if r.Some? then r.value.0 else cursor);
    }
  }

  lemma {:induction false} NothingFound(tokens: seq<Token>, cursor: nat)
    ensures FoundBackwards(tokens, [], [], cursor) && RangesOfFound(tokens, [], [], [], [])
  {
  }

  lemma {:induction false} SpanStartsThere(tokens: seq<Token>, words: seq<string>, index: Option<nat>, r: Option<Range>)
    requires index.Some? ==> r.Some? && Spans(tokens, words, index.value, r.value)
    ensures index.Some? ==> index.value < |tokens| && r.value.0 == tokens[index.value].start
  {
  }

  // The cursor of an earlier child is unchanged when a later one is put behind.
  lemma {:induction false} OneMoreChildFound(tokens: seq<Token>, children: seq<seq<string>>, found: seq<Option<nat>>,
                                             words: seq<string>, last: Option<nat>, end: nat, next: nat)
    requires FoundBackwards(tokens, children, found, next) && IsLastWindow(tokens, words, end, last)
    requires next == if last.Some? && last.value < |tokens| then tokens[last.value].start else end
    ensures FoundBackwards(tokens, children + [words], found + [last], end)
  {
    var more := found + [last];
    hide IsLastWindow;
    forall k | 0 <= k < |more| ensures FoundAt(tokens, children + [words], more, k, end) {
      if k < |found| {
        assert FoundAt(tokens, children, found, k, next);
        SameCursor(tokens, found, last, k, end, next);
      }
    }
  }

  lemma {:induction false} SameCursor(tokens: seq<Token>, found: seq<Option<nat>>, last: Option<nat>, k: nat, end: nat, next: nat)
    requires k < |found| && next == if last.Some? && last.value < |tokens| then tokens[last.value].start else end
    ensures CursorAfter(tokens, found + [last], k, end) == CursorAfter(tokens, found, k, next)
    decreases |found| - k
  {
    if k + 1 < |found| {
      SameCursor(tokens, found, last, k + 1, end, next);
    }
  }

  lemma {:induction false} OneMoreRange(tokens: seq<Token>, children: seq<seq<string>>, found: seq<Option<nat>>, rs: seq<Range>,
                                        at: seq<nat>, words: seq<string>, last: Option<nat>, r: Option<Range>)
    requires |found| == |children| && RangesOfFound(tokens, children, found, rs, at)
    requires r.Some? <==> last.Some?
    requires last.Some? ==> Spans(tokens, words, last.value, r.value)
    ensures RangesOfFound(tokens, children + [words], found + [last], if r.Some? then rs + [r.value] else rs,
                          if last.Some? then at + [|found|] else at)
  {
    var all, more := children + [words], found + [last];
    hide Spans;
    forall j | 0 <= j < |at| ensures RangeOfFound(tokens, all, more, rs[j], at[j]) && at[j] < |found| {
      assert RangeOfFound(tokens, children, found, rs[j], at[j]);
    }
    if last.Some? {
      assert RangeOfFound(tokens, all, more, r.value, |found|);
    }
    var places := if last.Some? then at + [|found|] else at;
    forall k | 0 <= k < |more| && more[k].Some? ensures k in places {
      if k < |found| {
        assert found[k].Some? && k in at;
      }
    }
    hide RangeOfFound;
  }

  // The words are those of the children of section i.
  ghost predicate AreChildWords(d: Document, i: nat, words: seq<seq<string>>) {
    var children := Children(Levels(d.sections), i, |d.sections|);
    |words| == |children| && forall a :: 0 <= a < |words| ==> children[a] < |d.sections| && words[a] == d.sections[children[a]].words
  }

  // A section's ranges: its children in order, found backwards from the text's end.
  lemma {:induction false} SectionRangesSpanChildren(d: Document, i: nat) returns (found: seq<Option<nat>>, at: seq<nat>)
    requires i < |d.sections| && d.html
    ensures AreChildWords(d, i, ChildWords(d, i))
    ensures var tokens := d.sections[i].tokens; var words := ChildWords(d, i);
      && FoundBackwards(tokens, words, found, d.sections[i].text.length)
      && RangesOfFound(tokens, words, found, SectionRanges(d, i), at)
  {
    var words := ChildWords(d, i);
    found, at := ExclusionsSpanChildren(d.sections[i].tokens, words, d.sections[i].text.length);
    ChildrenAreExact(Levels(d.sections), i, |d.sections|);
    hide FoundBackwards, RangesOfFound, Exclusions;
  }

  // No occurrence of a section lies in the text of one of its children found there.
  lemma {:induction false} ChildTextIsNotSearchedTwice(d: Document, i: nat, found: seq<Option<nat>>, at: seq<nat>, k: nat,
                                                       occurrences: seq<Span>, o: Span)
    requires i < |d.sections| && |found| == |ChildWords(d, i)|
    requires RangesOfFound(d.sections[i].tokens, ChildWords(d, i), found, SectionRanges(d, i), at)
    requires k < |found| && found[k].Some? && AreOccurrences(d.sections[i].text, SectionRanges(d, i), occurrences) && o in occurrences
    ensures var tokens, index, words := d.sections[i].tokens, found[k].value, ChildWords(d, i)[k];
      && words != [] && index + |words| <= |tokens|
      && !(tokens[index].start <= o.start && o.end <= tokens[index + |words| - 1].end)
  {
    hide SectionRanges, ChildWords;
    var j :| 0 <= j < |at| && at[j] == k;
    var ranges := SectionRanges(d, i);
    assert RangeOfFound(d.sections[i].tokens, ChildWords(d, i), found, ranges[j], k);
    OccurrenceIsOutside(d.sections[i].text, ranges, occurrences, o);
    assert ranges[j] in ranges;
  }

  // And nothing else is left out: a match that is not an occurrence lies in such a text.
  lemma {:induction false} OnlyChildTextIsLeftOut(d: Document, i: nat, found: seq<Option<nat>>, at: seq<nat>,
                                                  occurrences: seq<Span>, t: nat, start: nat, end: nat) returns (k: nat)
    requires i < |d.sections| && |found| == |ChildWords(d, i)|
    requires RangesOfFound(d.sections[i].tokens, ChildWords(d, i), found, SectionRanges(d, i), at)
    requires AreOccurrences(d.sections[i].text, SectionRanges(d, i), occurrences)
    requires var patterns := d.sections[i].text.patterns;
      t < |patterns| && Matches(patterns[t], start, end) && !Lists(occurrences, start, end)
    ensures k < |found| && found[k].Some?
    ensures var tokens, index, words := d.sections[i].tokens, found[k].value, ChildWords(d, i)[k];
      && words != [] && index + |words| <= |tokens|
      && tokens[index].start <= start && end <= tokens[index + |words| - 1].end
  {
    hide SectionRanges, ChildWords;
    var ranges := SectionRanges(d, i);
    LeftOutIsInside(d.sections[i].text, ranges, occurrences, t, start, end);
    var r :| r in ranges && r.0 <= start && end <= r.1;
    var j :| 0 <= j < |ranges| && ranges[j] == r;
    k := at[j];
    assert RangeOfFound(d.sections[i].tokens, ChildWords(d, i), found, ranges[j], k);
  }

  lemma {:induction false} LeftOutIsInside(text: Text, ranges: seq<Range>, occurrences: seq<Span>, t: nat, start: nat, end: nat)
    requires AreOccurrences(text, ranges, occurrences) && t < |text.patterns|
    requires Matches(text.patterns[t], start, end) && !Lists(occurrences, start, end)
    ensures ContainedInAny(start, end, ranges)
  {
  }

  lemma {:induction false} OccurrenceIsOutside(text: Text, ranges: seq<Range>, occurrences: seq<Span>, o: Span)
    requires AreOccurrences(text, ranges, occurrences) && o in occurrences
    ensures !ContainedInAny(o.start, o.end, ranges)
  {
    var patterns := text.patterns;
    TermsAtMatch(patterns, o.start, o.end, |patterns|);
    var t := o.terms[0];
    assert t in TermsAt(patterns, o.start, o.end, |patterns|);
    var n :| 0 <= n < |occurrences| && occurrences[n] == o;
    assert Lists(occurrences, o.start, o.end);
  }

  // ----- Keeping all occurrences or none --------------------------------------

  // documents[d] lists the occurrences of candidate document d.
  function Flat<T>(documents: seq<seq<T>>, n: nat): seq<T>
    requires n <= |documents|
  {
    if n == 0 then [] else Flat(documents, n - 1) + documents[n - 1]
  }

  lemma {:induction false} FlatUnfold<T>(documents: seq<seq<T>>, n: nat)
    requires n <= |documents|
    ensures Flat(documents, n) == if n == 0 then [] else Flat(documents, n - 1) + documents[n - 1]
  {
  }

  method Retain<T>(documents: seq<seq<T>>, limit: nat) returns (located: seq<T>, total: nat, counts: seq<nat>)
    ensures var all := Flat(documents, |documents|);
      total == |all| && located == if |all| <= limit then all else []
    ensures |counts| == |documents| && forall d :: 0 <= d < |documents| ==> counts[d] == |documents[d]|
  {
    hide Flat;
    FlatUnfold(documents, 0);
    located, total, counts := [], 0, [];
    var retaining := true;
    for d := 0 to |documents|
      invariant total == |Flat(documents, d)| && retaining == (total <= limit)
      invariant located == if retaining then Flat(documents, d) else []
      invariant |counts| == d && forall k :: 0 <= k < d ==> counts[k] == |documents[k]|
    {
      FlatUnfold(documents, d + 1);
      var count := 0;
      ghost var before := Flat(documents, d);
      for m := 0 to |documents[d]|
        invariant count == m && total == |before| + m && retaining == (total <= limit)
        invariant located == if retaining then before + documents[d][..m] else []
      {
        count := count + 1;
        total := total + 1;
        if retaining && total <= limit {
          located := located + [documents[d][m]];
          assert before + documents[d][..m] + [documents[d][m]] == before + documents[d][..m + 1];
        } else if retaining {
          located := [];
          retaining := false;
        }
      }
      assert documents[d][..|documents[d]|] == documents[d];
      counts := counts + [count];
    }
  }
}
