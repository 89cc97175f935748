// Retyping running section headers from repeated margin text that also stands as
// a real heading in the body.
module RunningHeaders {
  import opened Common

  datatype Box = Box(x0: real, y0: real, x1: real, y1: real)

  // Section number and folded title.
  type Key = (string, string)

  // A missing or ill-typed page, box or heading level is None.
  datatype Item = Item(kind: string, text: string, page: Option<int>, box: Option<Box>, level: Option<int>,
                       reason: string, originalKind: string)

  datatype Candidate = Candidate(key: Key, page: int, box: Box)

  predicate ValidBox(b: Box) {
    0.0 <= b.x0 < b.x1 <= 1000.0 && 0.0 <= b.y0 < b.y1 <= 1000.0
  }

  // parse reads "number title" off normalised text.
  function CandidateOf(item: Item, parse: string -> Option<Key>): Option<Candidate> {
    if item.kind != "text" || |item.text| > 160 || item.page.None? || item.page.value < 0 then None
    else if item.box.None? || !ValidBox(item.box.value) || parse(item.text).None? then None
    else Some(Candidate(parse(item.text).value, item.page.value, item.box.value))
  }

  function Distance(a: real, b: real): real { if a >= b then a - b else b - a }

  predicate Near(a: Box, b: Box) {
    Distance(a.y0, b.y0) <= 10.0 && Distance(a.y1, b.y1) <= 10.0
  }

  // ----- Evidence -------------------------------------------------------------

  // Item i is a heading below the margin.
  predicate IsBody(items: seq<Item>, parse: string -> Option<Key>, i: nat)
    requires i < |items|
  {
    var c := CandidateOf(items[i], parse);
    c.Some? && c.value.box.y0 >= 120.0 && items[i].level.Some? && 1 <= items[i].level.value <= 6
  }

  function BodyPages(items: seq<Item>, parse: string -> Option<Key>, key: Key): set<int> {
    BodyPagesAmong(items, parse, key, |items|)
  }

  // The pages of the body headings with this title among the first n items.
  function BodyPagesAmong(items: seq<Item>, parse: string -> Option<Key>, key: Key, n: nat): set<int>
    requires n <= |items|
  {
    set i | 0 <= i < n && IsBody(items, parse, i) && CandidateOf(items[i], parse).value.key == key
      :: CandidateOf(items[i], parse).value.page
  }

  // Item i is a thin line in the top margin whose title also stands in the body.
  predicate InMargin(items: seq<Item>, parse: string -> Option<Key>, i: nat)
    requires i < |items|
  {
    var c := CandidateOf(items[i], parse);
    && c.Some? && BodyPages(items, parse, c.value.key) != {}
    && c.value.box.y1 <= 120.0 && c.value.box.y1 - c.value.box.y0 <= 25.0
  }

  function PeerPages(items: seq<Item>, parse: string -> Option<Key>, c: Candidate): set<int> {
    set j | 0 <= j < |items| && InMargin(items, parse, j) && IsPeer(CandidateOf(items[j], parse).value, c)
      :: CandidateOf(items[j], parse).value.page
  }

  predicate IsPeer(d: Candidate, c: Candidate) {
    d.key == c.key && Near(d.box, c.box)
  }

  predicate IsRepeated(items: seq<Item>, parse: string -> Option<Key>, i: nat)
    requires i < |items|
  {
    InMargin(items, parse, i) && |PeerPages(items, parse, CandidateOf(items[i], parse).value)| >= 2
  }

  predicate IsWitness(d: Candidate, c: Candidate) {
    d.key != c.key && Near(d.box, c.box)
  }

  function WitnessKeys(items: seq<Item>, parse: string -> Option<Key>, c: Candidate): set<Key> {
    set j | 0 <= j < |items| && IsRepeated(items, parse, j) && IsWitness(CandidateOf(items[j], parse).value, c)
      :: CandidateOf(items[j], parse).value.key
  }

  function WitnessPages(items: seq<Item>, parse: string -> Option<Key>, c: Candidate): set<int> {
    set j | 0 <= j < |items| && IsRepeated(items, parse, j) && IsWitness(CandidateOf(items[j], parse).value, c)
      :: CandidateOf(items[j], parse).value.page
  }

  // A single margin line counts when its page has the real heading and the margin
  // position is established by other repeated titles.
  predicate IsEstablished(items: seq<Item>, parse: string -> Option<Key>, i: nat)
    requires i < |items|
  {
    && InMargin(items, parse, i)
    && var c := CandidateOf(items[i], parse).value;
       && c.page in BodyPages(items, parse, c.key)
       && |WitnessKeys(items, parse, c)| >= 2 && |WitnessPages(items, parse, c)| >= 3
  }

  predicate IsSelected(items: seq<Item>, parse: string -> Option<Key>, i: nat)
    requires i < |items|
  {
    IsRepeated(items, parse, i) || IsEstablished(items, parse, i)
  }

  function Retyped(item: Item): Item {
    item.(kind := "header", reason := "repeated_top_margin_with_body_heading", originalKind := item.kind)
  }

  function Classified(items: seq<Item>, parse: string -> Option<Key>): (result: seq<Item>)
    ensures |result| == |items|
  {
    seq(|items|, i requires 0 <= i < |items| => if IsSelected(items, parse, i) then Retyped(items[i]) else items[i])
  }

  // ----- The passes -------------------------------------------------------------

  method ClassifyRunningHeaders(items: seq<Item>, parse: string -> Option<Key>) returns (result: seq<Item>)
    ensures result == Classified(items, parse)
  {
    hide IsSelected, Retyped;
    var body := CollectBody(items, parse);
    var margin := CollectMargin(items, parse, body);
    var repeated := CollectRepeated(items, parse, margin);
    var selected := Select(items, parse, body, margin, repeated);
    result := [];
    for i := 0 to |items|
      invariant result == Classified(items, parse)[..i]
    {
      result := result + [if i in selected then Retyped(items[i]) else items[i]];
    }
  }

  // Title to the pages of its body headings.
  ghost predicate IsBodyMap(items: seq<Item>, parse: string -> Option<Key>, body: map<Key, set<int>>, n: nat)
    requires n <= |items|
  {
    forall key :: if key in body then body[key] == BodyPagesAmong(items, parse, key, n) && body[key] != {}
                  else BodyPagesAmong(items, parse, key, n) == {}
  }

  method CollectBody(items: seq<Item>, parse: string -> Option<Key>) returns (body: map<Key, set<int>>)
    ensures IsBodyMap(items, parse, body, |items|)
  {
    body := map[];
    for i := 0 to |items|
      invariant IsBodyMap(items, parse, body, i)
    {
      var c := CandidateOf(items[i], parse);
      BodyPagesStep(items, parse, i);
      if c.Some? && c.value.box.y0 >= 120.0 && items[i].level.Some? && 1 <= items[i].level.value <= 6 {
        var pages := if c.value.key in body then body[c.value.key] else {};
        assert c.value.page in pages + {c.value.page};
        body := body[c.value.key := pages + {c.value.page}];
      }
    }
  }

  lemma {:induction false} BodyPagesStep(items: seq<Item>, parse: string -> Option<Key>, i: nat)
    requires i < |items|
    ensures forall key ::
      var here := IsBody(items, parse, i) && CandidateOf(items[i], parse).value.key == key;
      var added := if here then {CandidateOf(items[i], parse).value.page} else {};
      BodyPagesAmong(items, parse, key, i + 1) == BodyPagesAmong(items, parse, key, i) + added
  {
  }

  method CollectMargin(items: seq<Item>, parse: string -> Option<Key>, body: map<Key, set<int>>) returns (margin: set<nat>)
    requires IsBodyMap(items, parse, body, |items|)
    ensures forall j :: j in margin <==> 0 <= j < |items| && InMargin(items, parse, j)
  {
    hide CandidateOf;
    margin := {};
    for i := 0 to |items|
      invariant forall j :: j in margin <==> 0 <= j < i && InMargin(items, parse, j)
    {
      var c := CandidateOf(items[i], parse);
      if c.Some? && c.value.key in body && c.value.box.y1 <= 120.0 && c.value.box.y1 - c.value.box.y0 <= 25.0 {
        margin := margin + {i};
      }
    }
  }

  method CollectRepeated(items: seq<Item>, parse: string -> Option<Key>, margin: set<nat>) returns (repeated: set<nat>)
    requires forall j :: j in margin <==> 0 <= j < |items| && InMargin(items, parse, j)
    ensures forall j :: j in repeated <==> 0 <= j < |items| && IsRepeated(items, parse, j)
  {
    hide CandidateOf, BodyPages;
    repeated := {};
    for i := 0 to |items|
      invariant forall j :: j in repeated <==> 0 <= j < i && IsRepeated(items, parse, j)
    {
      if i in margin {
        var c := CandidateOf(items[i], parse).value;
        var pages := set j | j in margin && IsPeer(CandidateOf(items[j], parse).value, c) :: CandidateOf(items[j], parse).value.page;
        assert pages == PeerPages(items, parse, c);
        if |pages| >= 2 {
          repeated := repeated + {i};
        }
      }
    }
  }

  method Select(items: seq<Item>, parse: string -> Option<Key>, body: map<Key, set<int>>, margin: set<nat>,
                repeated: set<nat>) returns (selected: set<nat>)
    requires forall j :: j in margin <==> 0 <= j < |items| && InMargin(items, parse, j)
    requires forall j :: j in repeated <==> 0 <= j < |items| && IsRepeated(items, parse, j)
    requires IsBodyMap(items, parse, body, |items|)
    ensures forall j :: j in selected <==> 0 <= j < |items| && IsSelected(items, parse, j)
  {
    hide IsRepeated, InMargin, IsEstablished, IsBodyMap;
    EstablishedAreInMargin(items, parse);
    selected := repeated;
    for i := 0 to |items|
      invariant forall j :: j in selected <==>
        0 <= j < |items| && (IsRepeated(items, parse, j) || (j < i && IsEstablished(items, parse, j)))
    {
      if i in margin {
        var established := Established(items, parse, body, repeated, i);
        if established {
          selected := selected + {i};
        }
      }
    }
  }

  method Established(items: seq<Item>, parse: string -> Option<Key>, body: map<Key, set<int>>,
                     repeated: set<nat>, i: nat) returns (r: bool)
    requires i < |items| && InMargin(items, parse, i)
    requires forall j :: j in repeated <==> 0 <= j < |items| && IsRepeated(items, parse, j)
    requires IsBodyMap(items, parse, body, |items|)
    ensures r == IsEstablished(items, parse, i)
  {
    hide CandidateOf, IsRepeated, IsWitness, BodyPagesAmong;
    var c := CandidateOf(items[i], parse).value;
    assert c.key in body && body[c.key] == BodyPages(items, parse, c.key);
    RepeatedAreCandidates(items, parse);
    var keys := set j | j in repeated && IsWitness(CandidateOf(items[j], parse).value, c) :: CandidateOf(items[j], parse).value.key;
    var pages := set j | j in repeated && IsWitness(CandidateOf(items[j], parse).value, c) :: CandidateOf(items[j], parse).value.page;
    assert keys == WitnessKeys(items, parse, c);
    assert pages == WitnessPages(items, parse, c);
    r := c.page in body[c.key] && |keys| >= 2 && |pages| >= 3;
  }

  lemma {:induction false} EstablishedAreInMargin(items: seq<Item>, parse: string -> Option<Key>)
    ensures forall j :: 0 <= j < |items| && IsEstablished(items, parse, j) ==> InMargin(items, parse, j)
  {
  }

  lemma {:induction false} RepeatedAreCandidates(items: seq<Item>, parse: string -> Option<Key>)
    ensures forall j :: 0 <= j < |items| && IsRepeated(items, parse, j) ==> CandidateOf(items[j], parse).Some?
  {
  }

  // ----- What the evidence is -----------------------------------------------------

  // Only the kind of a selected item changes, and what it was is noted on it.
  lemma {:induction false} OnlyKindsChange(items: seq<Item>, parse: string -> Option<Key>, i: nat)
    requires i < |items|
    ensures var before, after := items[i], Classified(items, parse)[i];
      && after.text == before.text && after.page == before.page && after.box == before.box && after.level == before.level
      && (IsSelected(items, parse, i) ==>
            before.kind == "text" && after.kind == "header" && after.originalKind == "text"
            && after.reason == "repeated_top_margin_with_body_heading")
      && (!IsSelected(items, parse, i) ==> after == before)
  {
    hide IsSelected;
    SelectedIsInMargin(items, parse, i);
  }

  lemma {:induction false} SelectedIsInMargin(items: seq<Item>, parse: string -> Option<Key>, i: nat)
    requires i < |items|
    ensures IsSelected(items, parse, i) ==> InMargin(items, parse, i) && CandidateOf(items[i], parse).Some? && items[i].kind == "text"
  {
    hide BodyPages, PeerPages, WitnessKeys, WitnessPages;
  }

  // A margin line has a body heading of its own title.
  lemma {:induction false} MarginHasBodyHeading(items: seq<Item>, parse: string -> Option<Key>, i: nat) returns (b: nat)
    requires i < |items| && InMargin(items, parse, i)
    ensures b < |items| && IsBody(items, parse, b)
    ensures CandidateOf(items[b], parse).value.key == CandidateOf(items[i], parse).value.key
  {
    hide CandidateOf;
    var key := CandidateOf(items[i], parse).value.key;
    var page :| page in BodyPages(items, parse, key);
    b :| 0 <= b < |items| && IsBody(items, parse, b) && CandidateOf(items[b], parse).value.key == key;
  }

  // A margin line of the same title at the same height, on another page.
  ghost predicate IsRepetition(items: seq<Item>, parse: string -> Option<Key>, i: nat, j: nat)
    requires i < |items| && j < |items| && InMargin(items, parse, i) && InMargin(items, parse, j)
  {
    var c, d := CandidateOf(items[i], parse).value, CandidateOf(items[j], parse).value;
    IsPeer(d, c) && d.page != c.page
  }

  // A title is repeated exactly when another page has it in the margin at the same height.
  lemma {:induction false} RepeatedIff(items: seq<Item>, parse: string -> Option<Key>, i: nat)
    requires i < |items| && InMargin(items, parse, i)
    ensures IsRepeated(items, parse, i) <==>
      exists j: nat :: j < |items| && InMargin(items, parse, j) && IsRepetition(items, parse, i, j)
  {
    hide CandidateOf, BodyPages;
    var c := CandidateOf(items[i], parse).value;
    var pages := PeerPages(items, parse, c);
    assert IsPeer(c, c) && c.page in pages;
    if j: nat :| j < |items| && InMargin(items, parse, j) && IsRepetition(items, parse, i, j) {
      TwoAreIn(pages, c.page, CandidateOf(items[j], parse).value.page);
    }
    if |pages| >= 2 {
      var other := AnotherOf(pages, c.page);
      var j :| 0 <= j < |items| && InMargin(items, parse, j) && IsPeer(CandidateOf(items[j], parse).value, c)
               && CandidateOf(items[j], parse).value.page == other;
      assert IsRepetition(items, parse, i, j);
    }
  }

  // Item j is a repeated title, other than item i's, at item i's height.
  ghost predicate WitnessAt(items: seq<Item>, parse: string -> Option<Key>, i: nat, j: nat)
    requires i < |items| && InMargin(items, parse, i)
  {
    j < |items| && IsRepeated(items, parse, j) && IsWitness(CandidateOf(items[j], parse).value, CandidateOf(items[i], parse).value)
  }

  // Some witness is on the page; some has the title.
  ghost predicate WitnessedOn(items: seq<Item>, parse: string -> Option<Key>, i: nat, page: int)
    requires i < |items| && InMargin(items, parse, i)
  {
    exists j: nat :: WitnessAt(items, parse, i, j) && CandidateOf(items[j], parse).value.page == page
  }

  ghost predicate WitnessedBy(items: seq<Item>, parse: string -> Option<Key>, i: nat, key: Key)
    requires i < |items| && InMargin(items, parse, i)
  {
    exists j: nat :: WitnessAt(items, parse, i, j) && CandidateOf(items[j], parse).value.key == key
  }

  ghost predicate TwoTitles(items: seq<Item>, parse: string -> Option<Key>, i: nat)
    requires i < |items| && InMargin(items, parse, i)
  {
    exists x, y :: x != y && WitnessedBy(items, parse, i, x) && WitnessedBy(items, parse, i, y)
  }

  ghost predicate ThreePages(items: seq<Item>, parse: string -> Option<Key>, i: nat)
    requires i < |items| && InMargin(items, parse, i)
  {
    exists x, y, z :: x != y && x != z && y != z
      && WitnessedOn(items, parse, i, x) && WitnessedOn(items, parse, i, y) && WitnessedOn(items, parse, i, z)
  }

  // A single margin line counts exactly when its page has its body heading and repeated
  // lines of two other titles, on three pages, stand at its height.
  lemma {:induction false} EstablishedIff(items: seq<Item>, parse: string -> Option<Key>, i: nat)
    requires i < |items| && InMargin(items, parse, i)
    ensures IsEstablished(items, parse, i) <==>
      && (exists b: nat :: b < |items| && IsBody(items, parse, b)
            && CandidateOf(items[b], parse).value.key == CandidateOf(items[i], parse).value.key
            && CandidateOf(items[b], parse).value.page == CandidateOf(items[i], parse).value.page)
      && TwoTitles(items, parse, i) && ThreePages(items, parse, i)
  {
    hide CandidateOf, IsRepeated, IsWitness, TwoTitles, ThreePages;
    TwoTitlesIff(items, parse, i);
    ThreePagesIff(items, parse, i);
  }

  lemma {:induction false} TwoTitlesIff(items: seq<Item>, parse: string -> Option<Key>, i: nat)
    requires i < |items| && InMargin(items, parse, i)
    ensures TwoTitles(items, parse, i) <==> |WitnessKeys(items, parse, CandidateOf(items[i], parse).value)| >= 2
  {
    var keys := WitnessKeys(items, parse, CandidateOf(items[i], parse).value);
    WitnessSets(items, parse, i);
    hide WitnessKeys, WitnessedBy;
    if TwoTitles(items, parse, i) {
      var x, y :| x != y && WitnessedBy(items, parse, i, x) && WitnessedBy(items, parse, i, y);
      TwoAreIn(keys, x, y);
    }
    if |keys| >= 2 {
      var x :| x in keys;
      var y := AnotherOf(keys, x);
    }
  }

  lemma {:induction false} ThreePagesIff(items: seq<Item>, parse: string -> Option<Key>, i: nat)
    requires i < |items| && InMargin(items, parse, i)
    ensures ThreePages(items, parse, i) <==> |WitnessPages(items, parse, CandidateOf(items[i], parse).value)| >= 3
  {
    var pages := WitnessPages(items, parse, CandidateOf(items[i], parse).value);
    WitnessSets(items, parse, i);
    hide WitnessPages, WitnessedOn, InMargin, CandidateOf;
    ThreeAreIn(pages);
  }

  lemma {:induction false} ThreeAreIn<T>(a: set<T>)
    ensures |a| >= 3 <==> exists x, y, z :: x != y && x != z && y != z && x in a && y in a && z in a
  {
    if x, y, z :| x != y && x != z && y != z && x in a && y in a && z in a {
      TwoAreIn(a - {x}, y, z);
    }
    if |a| >= 3 {
      var x :| x in a;
      var y := AnotherOf(a, x);
      var z := AnotherOf(a - {x}, y);
      assert x != y && x != z && y != z && x in a && y in a && z in a;
    }
  }

  lemma {:induction false} WitnessSets(items: seq<Item>, parse: string -> Option<Key>, i: nat)
    requires i < |items| && InMargin(items, parse, i)
    ensures var c := CandidateOf(items[i], parse).value;
      && (forall key :: key in WitnessKeys(items, parse, c) <==> WitnessedBy(items, parse, i, key))
      && (forall page :: page in WitnessPages(items, parse, c) <==> WitnessedOn(items, parse, i, page))
  {
    RepeatedAreCandidates(items, parse);
    hide CandidateOf, IsRepeated, IsWitness;
    var c := CandidateOf(items[i], parse).value;
    forall key ensures key in WitnessKeys(items, parse, c) <==> WitnessedBy(items, parse, i, key) {
      if key in WitnessKeys(items, parse, c) {
        var j :| 0 <= j < |items| && IsRepeated(items, parse, j) && IsWitness(CandidateOf(items[j], parse).value, c)
                 && CandidateOf(items[j], parse).value.key == key;
        assert WitnessAt(items, parse, i, j);
      }
    }
    forall page ensures page in WitnessPages(items, parse, c) <==> WitnessedOn(items, parse, i, page) {
      if page in WitnessPages(items, parse, c) {
        var j :| 0 <= j < |items| && IsRepeated(items, parse, j) && IsWitness(CandidateOf(items[j], parse).value, c)
                 && CandidateOf(items[j], parse).value.page == page;
        assert WitnessAt(items, parse, i, j);
      }
    }
  }

  lemma {:induction false} TwoAreIn<T>(a: set<T>, x: T, y: T)
    requires x in a && y in a && x != y
    ensures |a| >= 2
  {
    SubsetIsNoLarger({x, y}, a);
  }

  lemma {:induction false} AnotherOf<T>(a: set<T>, x: T) returns (y: T)
    requires |a| >= 2
    ensures y in a && y != x
  {
    assert |a - {x}| >= 1 by {
      SubsetIsNoLarger(a, (a - {x}) + {x});
    }
    y :| y in a - {x};
  }

  // ----- One pass is enough -------------------------------------------------------

  // Body evidence lies below the margin, so it is never retyped, and retyping
  // leaves it evidence.
  lemma {:induction false} BodyIsKept(items: seq<Item>, parse: string -> Option<Key>)
    ensures forall i :: 0 <= i < |items| && IsBody(items, parse, i) ==>
      !IsSelected(items, parse, i) && Classified(items, parse)[i] == items[i]
    ensures forall key :: BodyPages(Classified(items, parse), parse, key) == BodyPages(items, parse, key)
  {
    var after := Classified(items, parse);
    assert forall i :: 0 <= i < |items| ==> IsBody(after, parse, i) == IsBody(items, parse, i);
  }

  lemma {:induction false} NothingIsRepeatedAfter(items: seq<Item>, parse: string -> Option<Key>, i: nat)
    requires i < |items|
    ensures !IsRepeated(Classified(items, parse), parse, i)
    ensures InMargin(Classified(items, parse), parse, i) ==> InMargin(items, parse, i) && !IsSelected(items, parse, i)
  {
    var after := Classified(items, parse);
    BodyIsKept(items, parse);
    forall j | 0 <= j < |items| && InMargin(after, parse, j)
      ensures InMargin(items, parse, j) && after[j] == items[j]
    {
    }
    if InMargin(after, parse, i) {
      var c := CandidateOf(items[i], parse).value;
      assert PeerPages(after, parse, c) <= PeerPages(items, parse, c);
      SubsetIsNoLarger(PeerPages(after, parse, c), PeerPages(items, parse, c));
    }
  }

  // Classifying again changes nothing.
  lemma {:induction false} ClassificationIsFixedPoint(items: seq<Item>, parse: string -> Option<Key>)
    ensures Classified(Classified(items, parse), parse) == Classified(items, parse)
  {
    var after := Classified(items, parse);
    forall i | 0 <= i < |after| ensures !IsSelected(after, parse, i) {
      forall j | 0 <= j < |after| ensures !IsRepeated(after, parse, j) {
        NothingIsRepeatedAfter(items, parse, j);
      }
      if InMargin(after, parse, i) {
        assert WitnessKeys(after, parse, CandidateOf(after[i], parse).value) == {};
      }
    }
  }
}
