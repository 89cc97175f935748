// Turning aligned headings into a forest of sections with line and page ranges.
module SectionForest {
  import opened Bookmarks
  import opened Common
  import opened MarkdownHeadings
  import OutlineAlignment

  datatype Identity = ByKey(key: Key) | Internal(line: nat)

  datatype Kind = Container | Content | InternalNode | Structural

  // digest is that of heading and identity, normalized the title normalisation, and
  // structural the test that a title is just a number.
  datatype Input = Input(outlines: seq<Outline>, headings: seq<Heading>, matched: map<Key, nat>, totalLines: nat,
                         digest: (Heading, Identity) -> string, normalized: string -> string, structural: string -> bool)

  datatype Draft = Draft(id: string, title: string, level: nat, parentKey: Option<Key>, line: nat,
                         pageStart: Option<nat>, kind: Kind, matching: string)

  datatype Entry = Entry(id: string, title: string, level: nat, parent: Option<string>, ordinal: nat,
                         line: nat, lineEnd: nat, pageStart: Option<nat>, pageEnd: Option<nat>, kind: Kind, matching: string)

  const GLOBAL := "normalized_title_destination_body_global"
  const MONOTONIC := "normalized_title_monotonic"
  const INFERRED := "inferred_between_outline_nodes"

  function SectionId(input: Input, heading: Heading, identity: Identity): string {
    "struct-" + input.digest(heading, identity)
  }

  // How a bookmark was matched: among several headings of its title, or to the only one.
  function MethodOf(input: Input, o: Outline): string {
    if |OutlineAlignment.CandidatesAmong(o.title, input.headings, input.normalized, |input.headings|)| > 1 then GLOBAL else MONOTONIC
  }

  // ----- What one heading becomes -----------------------------------------

  // Heading index to the outline node matched to it, from the first n nodes.
  function ByHeading(input: Input, n: nat): map<nat, Outline>
    requires n <= |input.outlines|
  {
    if n == 0 then map[]
    else
      var o := input.outlines[n - 1];
      if o.key in input.matched then ByHeading(input, n - 1)[input.matched[o.key] := o] else ByHeading(input, n - 1)
  }

  function Nodes(input: Input): map<nat, Outline> {
    ByHeading(input, |input.outlines|)
  }

  // The last matched heading before heading h.
  function LastMatched(nodes: map<nat, Outline>, h: nat): (r: Option<nat>)
    ensures r.Some? ==> r.value < h && r.value in nodes && forall k :: r.value < k < h ==> k !in nodes
    ensures r.None? ==> forall k :: 0 <= k < h ==> k !in nodes
  {
    if h == 0 then None else if h - 1 in nodes then Some(h - 1) else LastMatched(nodes, h - 1)
  }

  function DraftOf(input: Input, h: nat): Draft
    requires h < |input.headings|
  {
    var heading, nodes := input.headings[h], Nodes(input);
    if h in nodes then
      var o := nodes[h];
      Draft(SectionId(input, heading, ByKey(o.key)), heading.title, o.level, o.parent, heading.line, Some(o.page),
            if o.hasChildren then Container else Content, MethodOf(input, o))
    else
      var p := LastMatched(nodes, h);
      Draft(SectionId(input, heading, Internal(heading.line)), heading.title,
            if p.Some? then nodes[p.value].level + 1 else 1,
            if p.Some? then Some(nodes[p.value].key) else None,
            heading.line, None, if input.structural(heading.title) then Structural else InternalNode, INFERRED)
  }

  function Drafts(input: Input, n: nat): (ds: seq<Draft>)
    requires n <= |input.headings|
    ensures |ds| == n && forall h :: 0 <= h < n ==> ds[h] == DraftOf(input, h)
  {
    if n == 0 then [] else Drafts(input, n - 1) + [DraftOf(input, n - 1)]
  }

  function IdByKey(input: Input, n: nat): map<Key, string>
    requires n <= |input.headings|
  {
    if n == 0 then map[]
    else if n - 1 in Nodes(input) then IdByKey(input, n - 1)[Nodes(input)[n - 1].key := DraftOf(input, n - 1).id]
    else IdByKey(input, n - 1)
  }

  // The line of the first draft from j on whose level is at most the given one.
  function NextLine(ds: seq<Draft>, level: nat, j: nat, otherwise: nat): nat
    requires j <= |ds|
    decreases |ds| - j
  {
    if j == |ds| then otherwise else if ds[j].level <= level then ds[j].line else NextLine(ds, level, j + 1, otherwise)
  }

  // The same for the start page, skipping drafts that have none.
  function NextPage(ds: seq<Draft>, level: nat, j: nat): Option<nat>
    requires j <= |ds|
    decreases |ds| - j
  {
    if j == |ds| then None
    else if ds[j].level <= level && ds[j].pageStart.Some? then ds[j].pageStart
    else NextPage(ds, level, j + 1)
  }

  function Max(a: int, b: int): int { if a >= b then a else b }

  function EntryOf(ds: seq<Draft>, ids: map<Key, string>, totalLines: nat, i: nat): Entry
    requires i < |ds|
  {
    var d := ds[i];
    var nextPage := NextPage(ds, d.level, i + 1);
    Entry(d.id, d.title, d.level,
          if d.parentKey.Some? && d.parentKey.value in ids then Some(ids[d.parentKey.value]) else None,
          i, d.line, Max(d.line, NextLine(ds, d.level, i + 1, totalLines + 1) - 1), d.pageStart,
          if d.pageStart.Some? && nextPage.Some? then Some(Max(d.pageStart.value, nextPage.value - 1)) else d.pageStart,
          d.kind, d.matching)
  }

  function Entries(input: Input): (es: seq<Entry>)
    ensures |es| == |input.headings|
  {
    var n := |input.headings|;
    var ds, ids := Drafts(input, n), IdByKey(input, n);
    seq(n, i requires 0 <= i < n => EntryOf(ds, ids, input.totalLines, i))
  }

  // ----- The passes over the drafts ---------------------------------------

  method BuildEntries(input: Input) returns (entries: seq<Entry>)
    ensures entries == Entries(input)
  {
    hide ByHeading, Drafts, IdByKey, Entries, EntryOf;
    var nodes := NodesByHeading(input);
    var draft, idByKey := DraftEntries(input, nodes);
    entries := [];
    for i := 0 to |draft|
      invariant |entries| == i
      invariant forall k :: 0 <= k < i ==> entries[k] == EntryOf(draft, idByKey, input.totalLines, k)
    {
      var entry := FinishEntry(draft, idByKey, input.totalLines, i);
      entries := entries + [entry];
    }
    EntriesOneByOne(input, entries);
  }

  method NodesByHeading(input: Input) returns (nodes: map<nat, Outline>)
    ensures nodes == Nodes(input)
  {
    nodes := map[];
    for n := 0 to |input.outlines|
      invariant nodes == ByHeading(input, n)
    {
      var o := input.outlines[n];
      if o.key in input.matched {
        nodes := nodes[input.matched[o.key] := o];
      }
    }
  }

  method DraftEntries(input: Input, nodes: map<nat, Outline>) returns (draft: seq<Draft>, idByKey: map<Key, string>)
    requires nodes == Nodes(input)
    ensures draft == Drafts(input, |input.headings|) && idByKey == IdByKey(input, |input.headings|)
  {
    hide ByHeading, Drafts, IdByKey, MethodOf, SectionId, DraftOf;
    NoDraftsYet(input);
    draft, idByKey := [], map[];
    for h := 0 to |input.headings|
      invariant draft == Drafts(input, h) && idByKey == IdByKey(input, h)
    {
      NextDraft(input, h);
      if h in nodes {
        var matched := MatchedDraft(input, nodes, h);
        idByKey := idByKey[nodes[h].key := matched.id];
        draft := draft + [matched];
        continue;
      }
      var inferred := InferredDraft(input, nodes, h);
      draft := draft + [inferred];
    }
  }

  method MatchedDraft(input: Input, nodes: map<nat, Outline>, h: nat) returns (d: Draft)
    requires h < |input.headings| && nodes == Nodes(input) && h in nodes
    ensures d == DraftOf(input, h)
  {
    hide ByHeading, MethodOf;
    var heading, o := input.headings[h], nodes[h];
    d := Draft(SectionId(input, heading, ByKey(o.key)), heading.title, o.level, o.parent, heading.line, Some(o.page),
               if o.hasChildren then Container else Content, MethodOf(input, o));
  }

  // A heading without a bookmark hangs below the last matched heading before it.
  method InferredDraft(input: Input, nodes: map<nat, Outline>, h: nat) returns (d: Draft)
    requires h < |input.headings| && nodes == Nodes(input) && h !in nodes
    ensures d == DraftOf(input, h)
  {
    hide ByHeading;
    var heading := input.headings[h];
    var preceding := LastMatched(nodes, h);
    var level, parentKey := 1, None;
    if preceding.Some? {
      level, parentKey := nodes[preceding.value].level + 1, Some(nodes[preceding.value].key);
    }
    d := Draft(SectionId(input, heading, Internal(heading.line)), heading.title, level, parentKey,
               heading.line, None, if input.structural(heading.title) then Structural else InternalNode, INFERRED);
  }

  lemma {:induction false} EntriesOneByOne(input: Input, es: seq<Entry>)
    requires |es| == |input.headings|
    requires var n := |input.headings|; var ds, ids := Drafts(input, n), IdByKey(input, n);
      forall k :: 0 <= k < n ==> es[k] == EntryOf(ds, ids, input.totalLines, k)
    ensures es == Entries(input)
  {
  }

  lemma {:induction false} NoDraftsYet(input: Input)
    ensures Drafts(input, 0) == [] && IdByKey(input, 0) == map[]
  {
  }

  lemma {:induction false} NextDraft(input: Input, h: nat)
    requires h < |input.headings|
    ensures Drafts(input, h + 1) == Drafts(input, h) + [DraftOf(input, h)]
    ensures IdByKey(input, h + 1) ==
      if h in Nodes(input) then IdByKey(input, h)[Nodes(input)[h].key := DraftOf(input, h).id] else IdByKey(input, h)
  {
  }

  method FinishEntry(ds: seq<Draft>, ids: map<Key, string>, totalLines: nat, i: nat) returns (e: Entry)
    requires i < |ds|
    ensures e == EntryOf(ds, ids, totalLines, i)
  {
    var d := ds[i];
    var parent := if d.parentKey.Some? && d.parentKey.value in ids then Some(ids[d.parentKey.value]) else None;
    var nextLine := totalLines + 1;
    for j := i + 1 to |ds|
      invariant nextLine == totalLines + 1
      invariant NextLine(ds, d.level, i + 1, totalLines + 1) == NextLine(ds, d.level, j, totalLines + 1)
    {
      if ds[j].level <= d.level {
        nextLine := ds[j].line;
        break;
      }
    }
    var nextPage := None;
    for j := i + 1 to |ds|
      invariant nextPage == None
      invariant NextPage(ds, d.level, i + 1) == NextPage(ds, d.level, j)
    {
      if ds[j].level <= d.level && ds[j].pageStart.Some? {
        nextPage := ds[j].pageStart;
        break;
      }
    }
    var pageEnd := d.pageStart;
    if d.pageStart.Some? && nextPage.Some? {
      var next: int := nextPage.value;
      pageEnd := Some(Max(d.pageStart.value, next - 1));
    }
    e := Entry(d.id, d.title, d.level, parent, i, d.line, Max(d.line, nextLine - 1), d.pageStart, pageEnd, d.kind, d.matching);
  }

  // ----- What the aligner and the scanners guarantee ----------------------

  ghost predicate Aligned(input: Input) {
    PreorderOutline(input) && Monotone(input) && LinesAscend(input) && Titled(input)
  }

  ghost predicate PreorderOutline(input: Input) {
    && Preorder(input.outlines, 1, None)
    && forall i :: 0 <= i < |input.outlines| ==> input.outlines[i].level >= 1 && input.outlines[i].page >= 1
  }

  ghost predicate Titled(input: Input) {
    forall i :: 0 <= i < |input.headings| ==> input.headings[i].title != ""
  }

  predicate IsMatched(input: Input, i: nat)
    requires i < |input.outlines|
  {
    input.outlines[i].key in input.matched
  }

  function HeadingOf(input: Input, i: nat): nat
    requires i < |input.outlines| && IsMatched(input, i)
  {
    input.matched[input.outlines[i].key]
  }

  // Keys are distinct, and later nodes are matched to later headings.
  ghost predicate Monotone(input: Input) {
    && (forall i, j :: 0 <= i < j < |input.outlines| ==> input.outlines[i].key != input.outlines[j].key)
    && (forall i :: 0 <= i < |input.outlines| && IsMatched(input, i) ==> HeadingOf(input, i) < |input.headings|)
    && (forall i, j :: 0 <= i < j < |input.outlines| && IsMatched(input, i) && IsMatched(input, j) ==>
          HeadingOf(input, i) < HeadingOf(input, j))
  }

  ghost predicate LinesAscend(input: Input) {
    && (forall i, j :: 0 <= i < j < |input.headings| ==> input.headings[i].line < input.headings[j].line)
    && (forall i :: 0 <= i < |input.headings| ==> 1 <= input.headings[i].line <= input.totalLines)
  }

  lemma {:induction false} NodeIndex(input: Input, n: nat, h: nat) returns (i: nat)
    requires n <= |input.outlines| && h in ByHeading(input, n)
    ensures i < n && IsMatched(input, i) && HeadingOf(input, i) == h && ByHeading(input, n)[h] == input.outlines[i]
    decreases n
  {
    if IsMatched(input, n - 1) && HeadingOf(input, n - 1) == h {
      i := n - 1;
    } else {
      i := NodeIndex(input, n - 1, h);
    }
  }

  lemma {:induction false} MatchedIsNode(input: Input, n: nat, i: nat)
    requires Monotone(input) && i < n <= |input.outlines| && IsMatched(input, i)
    ensures HeadingOf(input, i) in ByHeading(input, n) && ByHeading(input, n)[HeadingOf(input, i)] == input.outlines[i]
    decreases n
  {
    if i < n - 1 {
      MatchedIsNode(input, n - 1, i);
      assert IsMatched(input, n - 1) ==> HeadingOf(input, i) < HeadingOf(input, n - 1);
    }
  }

  // ----- Levels between a heading and its parent --------------------------

  // Heading p opens the section that heading c belongs to: one level up, with no
  // heading between them shallower than c.
  ghost predicate Encloses(input: Input, p: int, c: nat)
    requires c < |input.headings|
  {
    && 0 <= p < c
    && DraftOf(input, c).level == DraftOf(input, p).level + 1
    && forall k :: p < k < c ==> DraftOf(input, k).level >= DraftOf(input, c).level
  }

  lemma {:induction false} MatchedParentEncloses(input: Input, a: nat, b: nat)
    requires Monotone(input) && b < |input.outlines| && IsParentOf(input.outlines, a, b)
    requires IsMatched(input, a) && IsMatched(input, b)
    ensures HeadingOf(input, b) < |input.headings| && Encloses(input, HeadingOf(input, a), HeadingOf(input, b))
  {
    var nodes := Nodes(input);
    var p, c := HeadingOf(input, a), HeadingOf(input, b);
    MatchedIsNode(input, |input.outlines|, a);
    MatchedIsNode(input, |input.outlines|, b);
    forall k | p < k < c ensures DraftOf(input, k).level >= DraftOf(input, c).level {
      if k in nodes {
        NodeBetween(input, a, b, k);
      } else {
        var q := LastMatched(nodes, k);
        if q != Some(p) {
          NodeBetween(input, a, b, q.value);
        }
      }
    }
  }

  lemma {:induction false} NodeBetween(input: Input, a: nat, b: nat, k: nat)
    requires Monotone(input) && b < |input.outlines| && IsParentOf(input.outlines, a, b)
    requires IsMatched(input, a) && IsMatched(input, b)
    requires HeadingOf(input, a) < k < HeadingOf(input, b) && k in Nodes(input)
    ensures Nodes(input)[k].level >= input.outlines[b].level
  {
    var i := NodeIndex(input, |input.outlines|, k);
    assert a < i < b;
  }

  lemma {:induction false} InferredParentEncloses(input: Input, c: nat)
    requires c < |input.headings| && c !in Nodes(input) && LastMatched(Nodes(input), c).Some?
    ensures Encloses(input, LastMatched(Nodes(input), c).value, c)
  {
    var p := LastMatched(Nodes(input), c).value;
    forall k | p < k < c ensures DraftOf(input, k).level == DraftOf(input, c).level {
      SameLastMatched(Nodes(input), p, k);
    }
  }

  lemma {:induction false} SameLastMatched(nodes: map<nat, Outline>, p: nat, k: nat)
    requires p < k && p in nodes && forall j :: p < j < k ==> j !in nodes
    ensures LastMatched(nodes, k) == Some(p)
    decreases k
  {
    if p < k - 1 {
      SameLastMatched(nodes, p, k - 1);
    }
  }

  // ----- Parents ------------------------------------------------------------

  lemma {:induction false} IdByKeyFindsHeading(input: Input, n: nat, key: Key) returns (h: nat)
    requires n <= |input.headings| && key in IdByKey(input, n)
    ensures h < n && h in Nodes(input) && Nodes(input)[h].key == key && IdByKey(input, n)[key] == DraftOf(input, h).id
    decreases n
  {
    if n - 1 in Nodes(input) && Nodes(input)[n - 1].key == key {
      h := n - 1;
    } else {
      h := IdByKeyFindsHeading(input, n - 1, key);
    }
  }

  lemma {:induction false} MatchedKeyHasId(input: Input, n: nat, h: nat)
    requires h < n <= |input.headings| && h in Nodes(input)
    ensures Nodes(input)[h].key in IdByKey(input, n)
    decreases n
  {
    if h < n - 1 {
      MatchedKeyHasId(input, n - 1, h);
    }
  }

  // A parent id, when set, is that of an enclosing heading.
  lemma {:induction false} ParentEncloses(input: Input, c: nat) returns (p: nat)
    requires Aligned(input) && c < |input.headings| && Entries(input)[c].parent.Some?
    ensures Encloses(input, p, c) && Entries(input)[p].id == Entries(input)[c].parent.value
  {
    var n := |input.headings|;
    var key := DraftOf(input, c).parentKey.value;
    p := IdByKeyFindsHeading(input, n, key);
    var a := NodeIndex(input, |input.outlines|, p);
    if c in Nodes(input) {
      var b := NodeIndex(input, |input.outlines|, c);
      assert HangsFrom(input.outlines, b, 1, None);
      var j :| IsParentOf(input.outlines, j, b);
      assert j == a;
      MatchedParentEncloses(input, a, b);
    } else {
      var q := LastMatched(Nodes(input), c).value;
      var i := NodeIndex(input, |input.outlines|, q);
      assert i == a;
      InferredParentEncloses(input, c);
    }
  }

  // No parent id means a top-level entry, or a node whose own outline parent was
  // not matched; nothing else.
  lemma {:induction false} OrphansHaveUnmatchedParents(input: Input, c: nat)
    requires Aligned(input) && c < |input.headings|
    ensures Entries(input)[c].parent.None? <==>
      || Entries(input)[c].level == 1
      || (c in Nodes(input) && Nodes(input)[c].parent.Some? && Nodes(input)[c].parent.value !in input.matched)
  {
    var nodes, n := Nodes(input), |input.headings|;
    if c in nodes {
      var b := NodeIndex(input, |input.outlines|, c);
      assert HangsFrom(input.outlines, b, 1, None);
      if nodes[c].level != 1 {
        var a :| IsParentOf(input.outlines, a, b);
        if IsMatched(input, a) {
          MatchedIsNode(input, |input.outlines|, a);
          MatchedKeyHasId(input, n, HeadingOf(input, a));
        } else if Entries(input)[c].parent.Some? {
          var h := IdByKeyFindsHeading(input, n, input.outlines[a].key);
          var i := NodeIndex(input, |input.outlines|, h);
        }
      }
    } else {
      var p := LastMatched(nodes, c);
      if p.Some? {
        var i := NodeIndex(input, |input.outlines|, p.value);
        MatchedKeyHasId(input, n, p.value);
      }
    }
  }

  // ----- Where an entry's data come from -------------------------------------

  // Two headings carry the bookmark's normalised title.
  ghost predicate TitleRecurs(input: Input, o: Outline) {
    exists g, h :: 0 <= g < h < |input.headings|
      && input.normalized(input.headings[g].title) == input.normalized(o.title)
      && input.normalized(input.headings[h].title) == input.normalized(o.title)
  }

  // A matched bookmark's entry has its level and page, its kind by whether it has
  // children, the heading's title and line, and says whether the title was ambiguous.
  lemma {:induction false} MatchedEntryIsItsBookmarks(input: Input, i: nat)
    requires Monotone(input) && i < |input.outlines| && IsMatched(input, i)
    ensures HeadingOf(input, i) < |input.headings|
    ensures var o, h := input.outlines[i], HeadingOf(input, i); var e, heading := Entries(input)[h], input.headings[h];
      && e.level == o.level && e.pageStart == Some(o.page) && e.kind == (if o.hasChildren then Container else Content)
      && e.title == heading.title && e.line == heading.line && e.id == "struct-" + input.digest(heading, ByKey(o.key))
      && e.matching == (if TitleRecurs(input, o) then GLOBAL else MONOTONIC)
  {
    var o, h := input.outlines[i], HeadingOf(input, i);
    MatchedIsNode(input, |input.outlines|, i);
    SeveralCandidatesIff(input, o);
    EntryHasDraft(input, h);
    hide ByHeading, Entries, TitleRecurs;
  }

  lemma {:induction false} EntryHasDraft(input: Input, h: nat)
    requires h < |input.headings|
    ensures var e, d := Entries(input)[h], DraftOf(input, h);
      && e.id == d.id && e.title == d.title && e.level == d.level && e.line == d.line && e.pageStart == d.pageStart
      && e.kind == d.kind && e.matching == d.matching
      && e.parent == (if d.parentKey.Some? && d.parentKey.value in IdByKey(input, |input.headings|)
                      then Some(IdByKey(input, |input.headings|)[d.parentKey.value]) else None)
  {
    hide DraftOf, NextLine, NextPage, IdByKey;
  }

  lemma {:induction false} SeveralCandidatesIff(input: Input, o: Outline)
    ensures |OutlineAlignment.CandidatesAmong(o.title, input.headings, input.normalized, |input.headings|)| > 1 <==> TitleRecurs(input, o)
  {
    var c := OutlineAlignment.CandidatesAmong(o.title, input.headings, input.normalized, |input.headings|);
    if |c| > 1 {
      assert c[0] in c && c[1] in c && c[0] < c[1];
    }
    if TitleRecurs(input, o) {
      var g: nat, h: nat :| g < h < |input.headings|
        && input.normalized(input.headings[g].title) == input.normalized(o.title)
        && input.normalized(input.headings[h].title) == input.normalized(o.title);
      assert g in c && h in c;
    }
  }

  // Bookmark i has the last matched heading before heading h.
  ghost predicate IsMatchBefore(input: Input, i: nat, h: nat)
    requires i < |input.outlines|
  {
    && IsMatched(input, i) && HeadingOf(input, i) < h
    && forall j :: 0 <= j < |input.outlines| && IsMatched(input, j) && HeadingOf(input, j) < h ==>
         HeadingOf(input, j) <= HeadingOf(input, i)
  }

  // An unmatched heading's entry hangs one level below the bookmark matched last before
  // it, or stands at the top; it has no page, and its kind is by its title.
  lemma {:induction false} UnmatchedEntryIsInferred(input: Input, h: nat)
    requires Monotone(input) && h < |input.headings|
    requires forall i :: 0 <= i < |input.outlines| && IsMatched(input, i) ==> HeadingOf(input, i) != h
    ensures var e, heading := Entries(input)[h], input.headings[h];
      && e.pageStart.None? && e.pageEnd.None? && e.kind == (if input.structural(heading.title) then Structural else InternalNode)
      && e.title == heading.title && e.line == heading.line && e.id == "struct-" + input.digest(heading, Internal(heading.line))
      && e.matching == INFERRED
    ensures forall i :: 0 <= i < |input.outlines| && IsMatchBefore(input, i, h) ==>
      && HeadingOf(input, i) < |input.headings| && Entries(input)[h].level == input.outlines[i].level + 1
      && Entries(input)[h].parent == Some(Entries(input)[HeadingOf(input, i)].id)
    ensures (forall i :: 0 <= i < |input.outlines| ==> !IsMatchBefore(input, i, h)) ==>
      Entries(input)[h].level == 1 && Entries(input)[h].parent.None?
  {
    if h in Nodes(input) {
      var i := NodeIndex(input, |input.outlines|, h);
    }
    EntryHasDraft(input, h);
    EntryPages(input, h);
    forall i | 0 <= i < |input.outlines| && IsMatchBefore(input, i, h)
      ensures HeadingOf(input, i) < |input.headings| && Entries(input)[h].level == input.outlines[i].level + 1
      ensures Entries(input)[h].parent == Some(Entries(input)[HeadingOf(input, i)].id)
    {
      MatchBeforeIsLast(input, i, h);
      EntryHasDraft(input, HeadingOf(input, i));
      IdIsItsHeadings(input, i);
    }
    if forall i :: 0 <= i < |input.outlines| ==> !IsMatchBefore(input, i, h) {
      NoMatchBefore(input, h);
    }
  }

  lemma {:induction false} MatchBeforeIsLast(input: Input, i: nat, h: nat)
    requires Monotone(input) && i < |input.outlines| && h < |input.headings| && IsMatchBefore(input, i, h)
    ensures LastMatched(Nodes(input), h) == Some(HeadingOf(input, i)) && Nodes(input)[HeadingOf(input, i)] == input.outlines[i]
  {
    MatchedIsNode(input, |input.outlines|, i);
    var p := LastMatched(Nodes(input), h);
    var j := NodeIndex(input, |input.outlines|, p.value);
  }

  lemma {:induction false} NoMatchBefore(input: Input, h: nat)
    requires Monotone(input) && h < |input.headings| && forall i :: 0 <= i < |input.outlines| ==> !IsMatchBefore(input, i, h)
    ensures LastMatched(Nodes(input), h).None?
  {
    var p := LastMatched(Nodes(input), h);
    if p.Some? {
      var i := NodeIndex(input, |input.outlines|, p.value);
      forall j | 0 <= j < |input.outlines| && IsMatched(input, j) && HeadingOf(input, j) < h
        ensures HeadingOf(input, j) <= HeadingOf(input, i)
      {
        MatchedIsNode(input, |input.outlines|, j);
      }
      assert IsMatchBefore(input, i, h);
    }
  }

  lemma {:induction false} IdIsItsHeadings(input: Input, i: nat)
    requires Monotone(input) && i < |input.outlines| && IsMatched(input, i)
    ensures HeadingOf(input, i) < |input.headings|
    ensures var ids := IdByKey(input, |input.headings|); var key := input.outlines[i].key;
      key in ids && ids[key] == DraftOf(input, HeadingOf(input, i)).id
  {
    var n := |input.headings|;
    MatchedIsNode(input, |input.outlines|, i);
    MatchedKeyHasId(input, n, HeadingOf(input, i));
    hide DraftOf, IdByKey;
    var h := IdByKeyFindsHeading(input, n, input.outlines[i].key);
    var j := NodeIndex(input, |input.outlines|, h);
    assert i == j;
  }

  // ----- Line ranges ---------------------------------------------------------

  // Where the section opened at i ends: just before the next entry at its level
  // or shallower, or at the last line.
  lemma {:induction false} NextLineIsFirst(ds: seq<Draft>, level: nat, j: nat, otherwise: nat) returns (stop: nat)
    requires j <= |ds|
    ensures j <= stop <= |ds| && (forall k :: j <= k < stop ==> ds[k].level > level)
    ensures if stop == |ds| then NextLine(ds, level, j, otherwise) == otherwise
            else ds[stop].level <= level && NextLine(ds, level, j, otherwise) == ds[stop].line
    decreases |ds| - j
  {
    if j == |ds| || ds[j].level <= level {
      stop := j;
    } else {
      stop := NextLineIsFirst(ds, level, j + 1, otherwise);
    }
  }

  // The line range of entry i covers exactly the headings i, ..., stop - 1.
  lemma {:induction false} RangeCovers(input: Input, i: nat) returns (stop: nat)
    requires Aligned(input) && i < |input.headings|
    ensures i < stop <= |input.headings|
    ensures forall k :: i < k < stop ==> DraftOf(input, k).level > DraftOf(input, i).level
    ensures stop < |input.headings| ==> DraftOf(input, stop).level <= DraftOf(input, i).level
    ensures Entries(input)[i].lineEnd ==
      if stop == |input.headings| then input.totalLines else input.headings[stop].line - 1
  {
    hide *;
    var ds := Drafts(input, |input.headings|);
    stop := NextLineIsFirst(ds, ds[i].level, i + 1, input.totalLines + 1);
    LineEndOf(input, i);
    LineAfter(input, i, stop);
    DraftLine(input, stop);
    MaxOfLater(input.headings[i].line, if stop == |ds| then input.totalLines + 1 else ds[stop].line);
  }

  lemma {:induction false} MaxOfLater(a: nat, b: nat)
    requires a < b
    ensures Max(a, b - 1) == b - 1
  {
  }

  lemma {:induction false} LineAfter(input: Input, i: nat, k: nat)
    requires Aligned(input) && i < k <= |input.headings|
    ensures input.headings[i].line <= input.totalLines
    ensures k < |input.headings| ==> input.headings[i].line < input.headings[k].line
  {
  }

  lemma {:induction false} DraftLine(input: Input, k: nat)
    requires k <= |input.headings|
    ensures k < |input.headings| ==> DraftOf(input, k).line == input.headings[k].line
  {
  }

  lemma {:induction false} LineEndOf(input: Input, i: nat)
    requires i < |input.headings|
    ensures var ds := Drafts(input, |input.headings|);
      Entries(input)[i].lineEnd == Max(input.headings[i].line, NextLine(ds, ds[i].level, i + 1, input.totalLines + 1) - 1)
  {
    hide NextLine, NextPage, IdByKey, ByHeading;
  }

  // Entry k is the first after i that is not deeper and has a page of its own.
  ghost predicate IsNextWithPage(es: seq<Entry>, i: nat, k: int)
    requires i < |es|
  {
    && i < k < |es| && es[k].level <= es[i].level && es[k].pageStart.Some?
    && forall j :: i < j < k ==> es[j].level > es[i].level || es[j].pageStart.None?
  }

  // A section's pages end just before the next such entry's first page, though not
  // before its own first page; without such an entry they are that one page.
  lemma {:induction false} PagesEndBeforeNext(input: Input, i: nat)
    requires i < |input.headings|
    ensures var es := Entries(input);
      && (forall k :: IsNextWithPage(es, i, k) && es[i].pageStart.Some? ==>
            es[i].pageEnd == Some(Max(es[i].pageStart.value, es[k].pageStart.value - 1)))
      && ((forall k :: !IsNextWithPage(es, i, k)) || es[i].pageStart.None? ==> es[i].pageEnd == es[i].pageStart)
  {
    hide *;
    var k := FirstWithPage(input, i);
    ScanStopIsNext(Entries(input), i, k);
  }

  lemma {:induction false} ScanStopIsNext(es: seq<Entry>, i: nat, k: nat)
    requires i < |es| && PageScanStops(es, i, k)
    ensures forall j :: IsNextWithPage(es, i, j) ==> j == k
    ensures k < |es| <==> IsNextWithPage(es, i, k)
  {
  }

  // Where the page scan of entry i stops, at the next entry with a page, or the end.
  ghost predicate PageScanStops(es: seq<Entry>, i: nat, k: nat) {
    && i < k <= |es| && (forall x :: i < x < k ==> es[x].level > es[i].level || es[x].pageStart.None?)
    && (k < |es| ==> IsNextWithPage(es, i, k))
  }

  lemma {:induction false} FirstWithPage(input: Input, i: nat) returns (k: nat)
    requires i < |input.headings|
    ensures var es := Entries(input);
      && PageScanStops(es, i, k)
      && es[i].pageEnd == (if k < |es| && es[i].pageStart.Some? then Some(Max(es[i].pageStart.value, es[k].pageStart.value - 1))
                           else es[i].pageStart)
  {
    hide *;
    var ds, es := Drafts(input, |input.headings|), Entries(input);
    k := NextPageIsFirst(ds, ds[i].level, i + 1);
    forall x | 0 <= x < |es| ensures PagesAgree(ds, es, x) {
      EntryPages(input, x);
    }
    EntryPages(input, i);
    ScanOfEntries(ds, es, i, k);
  }

  predicate PagesAgree(ds: seq<Draft>, es: seq<Entry>, x: nat)
    requires x < |ds| == |es|
  {
    es[x].level == ds[x].level && es[x].pageStart == ds[x].pageStart
  }

  lemma {:induction false} ScanOfEntries(ds: seq<Draft>, es: seq<Entry>, i: nat, k: nat)
    requires i < k <= |ds| == |es| && forall x :: 0 <= x < |es| ==> PagesAgree(ds, es, x)
    requires forall x :: i < x < k ==> ds[x].level > ds[i].level || ds[x].pageStart.None?
    requires k < |ds| ==> ds[k].level <= ds[i].level && ds[k].pageStart.Some?
    ensures PageScanStops(es, i, k) && (k < |es| ==> es[k].pageStart == ds[k].pageStart)
  {
    assert PagesAgree(ds, es, i) && (k < |es| ==> PagesAgree(ds, es, k));
    forall x | i < x < k ensures es[x].level > es[i].level || es[x].pageStart.None? {
      assert PagesAgree(ds, es, x);
    }
    hide PagesAgree;
  }

  lemma {:induction false} EntryPages(input: Input, i: nat)
    requires i < |input.headings|
    ensures var ds, e := Drafts(input, |input.headings|), Entries(input)[i];
      var next := NextPage(ds, ds[i].level, i + 1);
      && PagesAgree(ds, Entries(input), i)
      && e.pageEnd == if e.pageStart.Some? && next.Some? then Some(Max(e.pageStart.value, next.value - 1)) else e.pageStart
  {
    hide Drafts, DraftOf, NextPage, NextLine, IdByKey;
  }

  lemma {:induction false} NextPageIsFirst(ds: seq<Draft>, level: nat, j: nat) returns (k: nat)
    requires j <= |ds|
    ensures j <= k <= |ds| && (forall i :: j <= i < k ==> ds[i].level > level || ds[i].pageStart.None?)
    ensures if k == |ds| then NextPage(ds, level, j) == None
            else ds[k].level <= level && ds[k].pageStart.Some? && NextPage(ds, level, j) == ds[k].pageStart
    decreases |ds| - j
  {
    if j == |ds| || (ds[j].level <= level && ds[j].pageStart.Some?) {
      k := j;
    } else {
      k := NextPageIsFirst(ds, level, j + 1);
    }
  }

  predicate Within(inner: Entry, outer: Entry) {
    outer.line <= inner.line && inner.lineEnd <= outer.lineEnd
  }

  // Entry i runs up to the first later entry that is not deeper, at stop.
  ghost predicate RunsTo(es: seq<Entry>, totalLines: nat, i: nat, stop: nat) {
    && i < stop <= |es| && (forall k :: i < k < stop ==> es[k].level > es[i].level)
    && (stop < |es| ==> es[stop].level <= es[i].level)
    && es[i].lineEnd == if stop == |es| then totalLines else es[stop].line - 1
  }

  ghost predicate EntryLinesAscend(es: seq<Entry>, totalLines: nat) {
    && (forall x, y :: 0 <= x < y < |es| ==> es[x].line < es[y].line)
    && (forall x :: 0 <= x < |es| ==> es[x].line <= totalLines)
  }

  lemma {:induction false} RangesNestOrDisjoint(input: Input, i: nat, j: nat)
    requires Aligned(input) && i < j < |input.headings|
    ensures var es := Entries(input);
      && es[i].line < es[j].line <= es[j].lineEnd
      && (es[i].lineEnd < es[j].line || (Within(es[j], es[i]) && es[i].level < es[j].level))
      && (Within(es[j], es[i]) <==> forall k :: i < k <= j ==> es[i].level < es[k].level)
  {
    var es := Entries(input);
    hide *;
    EntriesAscend(input);
    var a := EntryRuns(input, i);
    var b := EntryRuns(input, j);
    RunsNestOrDisjoint(es, input.totalLines, i, j, a, b);
  }

  lemma {:induction false} EntryIsItsDraft(input: Input, k: nat)
    requires k < |input.headings|
    ensures Entries(input)[k].level == DraftOf(input, k).level && Entries(input)[k].line == input.headings[k].line
  {
  }

  lemma {:induction false} EntriesAscend(input: Input)
    requires Aligned(input)
    ensures EntryLinesAscend(Entries(input), input.totalLines)
  {
    hide DraftOf, Entries;
    forall k | 0 <= k < |input.headings| ensures Entries(input)[k].line == input.headings[k].line {
      EntryIsItsDraft(input, k);
    }
  }

  lemma {:induction false} EntryRuns(input: Input, i: nat) returns (stop: nat)
    requires Aligned(input) && i < |input.headings|
    ensures RunsTo(Entries(input), input.totalLines, i, stop)
  {
    hide DraftOf, Entries, Aligned;
    stop := RangeCovers(input, i);
    forall k | 0 <= k < |input.headings|
      ensures Entries(input)[k].level == DraftOf(input, k).level && Entries(input)[k].line == input.headings[k].line
    {
      EntryIsItsDraft(input, k);
    }
  }

  lemma {:induction false} RunsNestOrDisjoint(es: seq<Entry>, totalLines: nat, i: nat, j: nat, a: nat, b: nat)
    requires i < j < |es| && EntryLinesAscend(es, totalLines) && RunsTo(es, totalLines, i, a) && RunsTo(es, totalLines, j, b)
    ensures es[i].line < es[j].line <= es[j].lineEnd
    ensures es[i].lineEnd < es[j].line || (Within(es[j], es[i]) && es[i].level < es[j].level)
    ensures Within(es[j], es[i]) <==> forall k :: i < k <= j ==> es[i].level < es[k].level
  {
    if a <= j {
      assert es[a].level <= es[i].level;
    } else if a < |es| {
      assert b <= a;
    }
  }

  // Node b is a descendant of node a in the outline.
  ghost predicate Descends(os: seq<Outline>, a: nat, b: nat) {
    a < b < |os| && forall k :: a < k <= b ==> os[k].level > os[a].level
  }

  // A section's lines cover every matched descendant's, whether or not the nodes
  // between them were matched and so whether or not parent ids lead up to it.
  lemma {:induction false} DescendantsAreCovered(input: Input, a: nat, b: nat)
    requires Aligned(input) && Descends(input.outlines, a, b) && IsMatched(input, a) && IsMatched(input, b)
    ensures HeadingOf(input, a) < HeadingOf(input, b) < |input.headings|
    ensures Within(Entries(input)[HeadingOf(input, b)], Entries(input)[HeadingOf(input, a)])
  {
    hide Preorder;
    var p, c := HeadingOf(input, a), HeadingOf(input, b);
    RangesNestOrDisjoint(input, p, c);
    forall k | p < k <= c ensures Entries(input)[p].level < Entries(input)[k].level {
      DescendantLevels(input, a, b, k);
    }
  }

  lemma {:induction false} DescendantLevels(input: Input, a: nat, b: nat, k: nat)
    requires Monotone(input) && Descends(input.outlines, a, b) && IsMatched(input, a) && IsMatched(input, b)
    requires HeadingOf(input, a) < k <= HeadingOf(input, b) < |input.headings|
    ensures DraftOf(input, HeadingOf(input, a)).level < DraftOf(input, k).level
  {
    var nodes := Nodes(input);
    MatchedIsNode(input, |input.outlines|, a);
    var q := if k in nodes then k else LastMatched(nodes, k).value;
    var i := NodeIndex(input, |input.outlines|, q);
    assert a <= i <= b;
  }

  // ----- The forest ----------------------------------------------------------

  // Entry j is the parent of entry i: earlier, one level up, covering it, and the
  // innermost entry that covers it.
  ghost predicate IsParentEntry(es: seq<Entry>, j: int, i: nat)
    requires i < |es|
  {
    && 0 <= j < i
    && es[i].parent == Some(es[j].id)
    && es[i].level == es[j].level + 1
    && Within(es[i], es[j])
    && forall k :: j < k < i ==> !Within(es[i], es[k])
  }

  ghost predicate Forest(es: seq<Entry>, totalLines: nat) {
    && (forall i :: 0 <= i < |es| ==> Valid(es[i], i, totalLines))
    && (forall i :: 0 <= i < |es| && es[i].parent.Some? ==> exists j :: IsParentEntry(es, j, i))
    && (forall i, j :: 0 <= i < j < |es| ==> es[i].lineEnd < es[j].line || Within(es[j], es[i]))
  }

  // The conditions an entry's own constructor checks.
  predicate Valid(e: Entry, ordinal: nat, totalLines: nat) {
    && e.id != "" && e.title != "" && e.matching != ""
    && e.level >= 1 && e.ordinal == ordinal
    && 1 <= e.line <= e.lineEnd <= totalLines
    && (e.pageStart.Some? ==> e.pageStart.value >= 1)
    && (e.pageStart.Some? <==> e.pageEnd.Some?)
    && (e.pageStart.Some? ==> e.pageStart.value <= e.pageEnd.value)
  }

  lemma {:induction false} EntryIsValid(input: Input, i: nat)
    requires Aligned(input) && i < |input.headings|
    ensures Valid(Entries(input)[i], i, input.totalLines)
  {
    var stop := RangeCovers(input, i);
    EntryIsNamed(input, i);
    hide MethodOf, SectionId;
    if i in Nodes(input) {
      var o := NodeIndex(input, |input.outlines|, i);
    }
  }

  lemma {:induction false} EntryIsNamed(input: Input, i: nat)
    requires Titled(input) && i < |input.headings|
    ensures var e := Entries(input)[i]; e.id != "" && e.title != "" && e.matching != ""
  {
    hide ByHeading, NextLine, NextPage;
    assert DraftOf(input, i).title == input.headings[i].title;
  }

  lemma {:induction false} ParentEntryIsInnermost(input: Input, c: nat)
    requires Aligned(input) && c < |input.headings| && Entries(input)[c].parent.Some?
    ensures exists j :: IsParentEntry(Entries(input), j, c)
  {
    hide *;
    var es := Entries(input);
    var p := ParentLevels(input, c);
    RangesNestOrDisjoint(input, p, c);
    forall k | p < k < c ensures Within(es[c], es[k]) <==> forall x :: k < x <= c ==> es[k].level < es[x].level {
      RangesNestOrDisjoint(input, k, c);
    }
    CoversInnermost(es, p, c);
  }

  // The levels from a parent entry to its child.
  ghost predicate LevelsEnclose(es: seq<Entry>, p: int, c: nat) {
    && 0 <= p < c < |es| && es[c].level == es[p].level + 1
    && forall k :: p < k < c ==> es[k].level >= es[c].level
  }

  lemma {:induction false} ParentLevels(input: Input, c: nat) returns (p: nat)
    requires Aligned(input) && c < |input.headings| && Entries(input)[c].parent.Some?
    ensures p < c
    ensures var es := Entries(input); LevelsEnclose(es, p, c) && es[c].parent == Some(es[p].id)
  {
    hide *;
    var es := Entries(input);
    p := ParentEncloses(input, c);
    forall k | 0 <= k < |es| ensures es[k].level == DraftOf(input, k).level {
      EntryIsItsDraft(input, k);
    }
    EnclosingLevels(input, es, p, c);
  }

  lemma {:induction false} EnclosingLevels(input: Input, es: seq<Entry>, p: nat, c: nat)
    requires c < |input.headings| == |es| && Encloses(input, p, c)
    requires forall k :: 0 <= k < |es| ==> es[k].level == DraftOf(input, k).level
    ensures p < c && LevelsEnclose(es, p, c)
  {
    hide DraftOf;
  }

  lemma {:induction false} CoversInnermost(es: seq<Entry>, p: nat, c: nat)
    requires LevelsEnclose(es, p, c) && es[c].parent == Some(es[p].id)
    requires Within(es[c], es[p]) <==> forall k :: p < k <= c ==> es[p].level < es[k].level
    requires forall k :: p < k < c ==> (Within(es[c], es[k]) <==> forall x :: k < x <= c ==> es[k].level < es[x].level)
    ensures exists j :: IsParentEntry(es, j, c)
  {
    hide Within;
    forall k | p < k < c ensures !Within(es[c], es[k]) {
      assert es[k].level >= es[c].level;
    }
    assert IsParentEntry(es, p, c);
  }

  lemma {:induction false} EntriesFormForest(input: Input)
    requires Aligned(input)
    ensures Forest(Entries(input), input.totalLines)
  {
    var es := Entries(input);
    forall i | 0 <= i < |es| ensures Valid(es[i], i, input.totalLines) {
      EntryIsValid(input, i);
    }
    forall i | 0 <= i < |es| && es[i].parent.Some? ensures exists j :: IsParentEntry(es, j, i) {
      ParentEntryIsInnermost(input, i);
    }
    forall i, j | 0 <= i < j < |es| ensures es[i].lineEnd < es[j].line || Within(es[j], es[i]) {
      RangesNestOrDisjoint(input, i, j);
    }
  }
}
