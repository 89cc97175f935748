// Merging the overlapping matches of several search terms into one ascending
// stream of spans, each tagged with every term that matches it.
module TermSpans {
  import opened Common

  // ends[s] is where the term's match starting at s ends, if one starts there.
  // Every term matches non-empty text, so a match ends after its start.
  type Pattern = seq<Option<nat>>

  ghost predicate WellFormed(patterns: seq<Pattern>, length: nat) {
    forall t, s :: 0 <= t < |patterns| && 0 <= s < |patterns[t]| && patterns[t][s].Some? ==>
      s < patterns[t][s].value <= length
  }

  predicate Matches(pattern: Pattern, start: int, end: int) {
    0 <= start < |pattern| && pattern[start] == Some(end)
  }

  datatype Item = Item(start: nat, end: nat, term: nat)

  datatype Span = Span(start: nat, end: nat, terms: seq<nat>)

  predicate Precedes(s1: nat, e1: nat, s2: nat, e2: nat) {
    s1 < s2 || (s1 == s2 && e1 < e2)
  }

  predicate ItemLeq(a: Item, b: Item) {
    Precedes(a.start, a.end, b.start, b.end) || (a.start == b.start && a.end == b.end && a.term <= b.term)
  }

  // ----- What the stream must be -------------------------------------------

  // The terms among the first n that match exactly [start, end).
  function TermsAt(patterns: seq<Pattern>, start: nat, end: nat, n: nat): seq<nat>
    requires n <= |patterns|
  {
    if n == 0 then []
    else if Matches(patterns[n - 1], start, end) then TermsAt(patterns, start, end, n - 1) + [n - 1]
    else TermsAt(patterns, start, end, n - 1)
  }

  ghost predicate IsListing(patterns: seq<Pattern>, spans: seq<Span>) {
    && (forall i, j :: 0 <= i < j < |spans| ==>
          Precedes(spans[i].start, spans[i].end, spans[j].start, spans[j].end))
    && (forall i :: 0 <= i < |spans| ==>
          && spans[i].terms != []
          && spans[i].terms == TermsAt(patterns, spans[i].start, spans[i].end, |patterns|))
    && (forall t, s: nat, e: nat :: 0 <= t < |patterns| && Matches(patterns[t], s, e) ==> Lists(spans, s, e))
  }

  ghost predicate Lists(spans: seq<Span>, start: nat, end: nat) {
    exists i :: 0 <= i < |spans| && spans[i].start == start && spans[i].end == end
  }

  // ----- One term's matches -------------------------------------------------

  // The first match starting at or after position: the leftmost search.
  function Search(pattern: Pattern, position: nat): (r: Option<(nat, nat)>)
    ensures r.Some? ==> position <= r.value.0 && Matches(pattern, r.value.0, r.value.1)
    ensures forall s :: position <= s < |pattern| && pattern[s].Some? ==> r.Some? && r.value.0 <= s
    decreases |pattern| - position
  {
    if position >= |pattern| then None
    else if pattern[position].Some? then Some((position, pattern[position].value))
    else Search(pattern, position + 1)
  }

  // ----- The priority queue --------------------------------------------------

  lemma {:induction false} LeastExists(items: set<Item>)
    requires items != {}
    ensures exists m :: m in items && forall x :: x in items ==> ItemLeq(m, x)
    decreases |items|
  {
    var a :| a in items;
    if items != {a} {
      var rest := items - {a};
      assert rest != {};
      LeastExists(rest);
      var m :| m in rest && forall x :: x in rest ==> ItemLeq(m, x);
      var least := if ItemLeq(a, m) then a else m;
      assert forall x :: x in items ==> x == a || x in rest;
      assert least in items && forall x :: x in items ==> ItemLeq(least, x);
    }
  }

  class Heap {
    var items: set<Item>

    constructor ()
      ensures items == {}
    {
      items := {};
    }

    method Push(item: Item)
      modifies this
      ensures items == old(items) + {item}
    {
      items := items + {item};
    }

    method Pop() returns (item: Item)
      requires items != {}
      modifies this
      ensures item in old(items) && forall x :: x in old(items) ==> ItemLeq(item, x)
      ensures items == old(items) - {item}
    {
      LeastExists(items);
      item :| item in items && forall x :: x in items ==> ItemLeq(item, x);
      items := items - {item};
    }

    method Peek() returns (item: Item)
      requires items != {}
      ensures item in items && forall x :: x in items ==> ItemLeq(item, x)
    {
      LeastExists(items);
      item :| item in items && forall x :: x in items ==> ItemLeq(item, x);
    }
  }

  // ----- The merge -----------------------------------------------------------

  ghost predicate ItemsMatch(patterns: seq<Pattern>, items: set<Item>) {
    && (forall x :: x in items ==> x.term < |patterns| && Matches(patterns[x.term], x.start, x.end))
    && (forall x, y :: x in items && y in items && x.term == y.term ==> x == y)
  }

  // Term t still has an item at or before start s.
  ghost predicate Queued(items: set<Item>, t: nat, s: nat) {
    exists x :: x in items && x.term == t && x.start <= s
  }

  // Every match is listed, queued, or waits behind a term of the current group.
  ghost predicate Accounted(patterns: seq<Pattern>, items: set<Item>, spans: seq<Span>, waiting: seq<nat>, after: int) {
    forall t, s: nat, e: nat :: 0 <= t < |patterns| && Matches(patterns[t], s, e) ==>
      Lists(spans, s, e) || Queued(items, t, s) || (t in waiting && s > after)
  }

  ghost predicate Sorted(patterns: seq<Pattern>, spans: seq<Span>) {
    && (forall i, j :: 0 <= i < j < |spans| ==>
          Precedes(spans[i].start, spans[i].end, spans[j].start, spans[j].end))
    && (forall i :: 0 <= i < |spans| ==>
          && spans[i].terms != []
          && spans[i].terms == TermsAt(patterns, spans[i].start, spans[i].end, |patterns|))
  }

  ghost predicate AllBefore(spans: seq<Span>, items: set<Item>) {
    forall i, x :: 0 <= i < |spans| && x in items ==> Precedes(spans[i].start, spans[i].end, x.start, x.end)
  }

  predicate Ascending(ts: seq<nat>) {
    forall i, j :: 0 <= i < j < |ts| ==> ts[i] < ts[j]
  }

  method IterTermSpans(patterns: seq<Pattern>, length: nat) returns (spans: seq<Span>)
    requires WellFormed(patterns, length)
    ensures IsListing(patterns, spans)
  {
    var pending := Prime(patterns);
    spans := [];
    ghost var lastStart, lastEnd := -1, 0;
    while pending.items != {}
      invariant fresh(pending)
      invariant ItemsMatch(patterns, pending.items) && Sorted(patterns, spans) && AllBefore(spans, pending.items)
      invariant Accounted(patterns, pending.items, spans, [], -1)
      invariant -1 <= lastStart <= length && 0 <= lastEnd <= length
      invariant forall x :: x in pending.items ==> lastStart < x.start || (lastStart == x.start && lastEnd < x.end)
      decreases length - lastStart, length - lastEnd
    {
      ghost var before := pending.items;
      var start, end, grouped := PopGroup(pending);
      assert Item(start, end, grouped[0]) in before;
      GroupIsTermsAt(patterns, before, spans, start, end, grouped);
      ghost var previous := spans;
      spans := spans + [Span(start, end, grouped)];
      EmitKeepsAccount(patterns, before, pending.items, previous, start, end, grouped);
      Advance(patterns, pending, grouped, start, end, spans);
      lastStart, lastEnd := start, end;
    }
  }

  // One item per term that matches anywhere.
  method Prime(patterns: seq<Pattern>) returns (pending: Heap)
    ensures fresh(pending) && ItemsMatch(patterns, pending.items)
    ensures Accounted(patterns, pending.items, [], [], -1)
  {
    pending := new Heap();
    for t := 0 to |patterns|
      invariant ItemsMatch(patterns, pending.items)
      invariant forall x :: x in pending.items ==> x.term < t
      invariant forall u, s: nat, e: nat :: 0 <= u < t && Matches(patterns[u], s, e) ==> Queued(pending.items, u, s)
    {
      ghost var before := pending.items;
      var match0 := Search(patterns[t], 0);
      if match0.Some? {
        pending.Push(Item(match0.value.0, match0.value.1, t));
        StillQueued(before, pending.items);
      }
    }
  }

  lemma {:induction false} StillQueued(items: set<Item>, more: set<Item>)
    requires items <= more
    ensures forall t, s :: Queued(items, t, s) ==> Queued(more, t, s)
  {
  }

  // Pops the least span with every term queued at it. Equal spans leave the queue
  // in term order, so the group needs no reordering.
  method PopGroup(pending: Heap) returns (start: nat, end: nat, grouped: seq<nat>)
    requires pending.items != {}
    modifies pending
    ensures forall x :: x in old(pending.items) ==> x in pending.items || (x.start == start && x.end == end && x.term in grouped)
    ensures pending.items <= old(pending.items)
    ensures forall x :: x in pending.items ==> Precedes(start, end, x.start, x.end)
    ensures grouped != [] && Ascending(grouped)
    ensures forall t :: t in grouped ==> Item(start, end, t) in old(pending.items)
  {
    var first := pending.Pop();
    start, end, grouped := first.start, first.end, [first.term];
    while pending.items != {}
      invariant pending.items <= old(pending.items)
      invariant forall x :: x in old(pending.items) ==>
        x in pending.items || (x.start == start && x.end == end && x.term in grouped)
      invariant forall t :: t in grouped ==> Item(start, end, t) in old(pending.items) - pending.items
      invariant forall x :: x in pending.items ==> ItemLeq(Item(start, end, grouped[|grouped| - 1]), x)
      invariant grouped != [] && Ascending(grouped)
      decreases pending.items
    {
      var next := pending.Peek();
      if next.start != start || next.end != end {
        break;
      }
      next := pending.Pop();
      assert next.start == start && next.end == end;
      assert next.term != grouped[|grouped| - 1];
      grouped := grouped + [next.term];
    }
  }

  // The next match of every term of the group.
  method Advance(patterns: seq<Pattern>, pending: Heap, grouped: seq<nat>, start: nat, end: nat, ghost spans: seq<Span>)
    requires ItemsMatch(patterns, pending.items) && Ascending(grouped)
    requires forall t :: t in grouped ==> t < |patterns|
    requires forall x :: x in pending.items ==> x.term !in grouped && Precedes(start, end, x.start, x.end)
    requires Accounted(patterns, pending.items, spans, grouped, start) && AllBefore(spans, pending.items)
    requires forall i :: 0 <= i < |spans| ==> spans[i].start <= start
    modifies pending
    ensures ItemsMatch(patterns, pending.items) && Accounted(patterns, pending.items, spans, [], -1)
    ensures AllBefore(spans, pending.items)
    ensures forall x :: x in pending.items ==> Precedes(start, end, x.start, x.end)
  {
    for k := 0 to |grouped|
      invariant ItemsMatch(patterns, pending.items)
      invariant forall x :: x in pending.items ==> x.term !in grouped[k..] && Precedes(start, end, x.start, x.end)
      invariant Accounted(patterns, pending.items, spans, grouped[k..], start) && AllBefore(spans, pending.items)
    {
      ghost var before := pending.items;
      var t := grouped[k];
      assert t in grouped;
      var next := Search(patterns[t], start + 1);
      if next.Some? {
        pending.Push(Item(next.value.0, next.value.1, t));
      }
      PushKeepsAccount(patterns, before, pending.items, spans, grouped[k..], start);
      assert grouped[k..][1..] == grouped[k + 1..];
    }
    assert grouped[|grouped|..] == [];
    assert Accounted(patterns, pending.items, spans, [], start);
  }

  lemma {:induction false} PushKeepsAccount(patterns: seq<Pattern>, before: set<Item>, items: set<Item>, spans: seq<Span>,
                         waiting: seq<nat>, start: nat)
    requires waiting != [] && waiting[0] < |patterns| && Accounted(patterns, before, spans, waiting, start)
    requires var next := Search(patterns[waiting[0]], start + 1);
      items == before + if next.Some? then {Item(next.value.0, next.value.1, waiting[0])} else {}
    ensures Accounted(patterns, items, spans, waiting[1..], start)
  {
    StillQueued(before, items);
    var next := Search(patterns[waiting[0]], start + 1);
    forall t, s: nat, e: nat | 0 <= t < |patterns| && Matches(patterns[t], s, e)
      ensures Lists(spans, s, e) || Queued(items, t, s) || (t in waiting[1..] && s > start)
    {
      if !Lists(spans, s, e) && !Queued(before, t, s) && t == waiting[0] {
        assert Item(next.value.0, next.value.1, t) in items;
      }
    }
  }

  lemma {:induction false} EmitKeepsAccount(patterns: seq<Pattern>, before: set<Item>, items: set<Item>, spans: seq<Span>,
                         start: nat, end: nat, grouped: seq<nat>)
    requires ItemsMatch(patterns, before) && items <= before && Accounted(patterns, before, spans, [], -1)
    requires forall x :: x in before ==> x in items || (x.start == start && x.end == end && x.term in grouped)
    ensures Accounted(patterns, items, spans + [Span(start, end, grouped)], grouped, start)
  {
    var more := spans + [Span(start, end, grouped)];
    forall t, s: nat, e: nat | 0 <= t < |patterns| && Matches(patterns[t], s, e)
      ensures Lists(more, s, e) || Queued(items, t, s) || (t in grouped && s > start)
    {
      if Lists(spans, s, e) {
        var i :| 0 <= i < |spans| && spans[i].start == s && spans[i].end == e;
        assert more[i] == spans[i];
      } else {
        var x :| x in before && x.term == t && x.start <= s;
        if x !in items && s == start {
          assert more[|spans|].start == s && more[|spans|].end == e;
        }
      }
    }
  }

  lemma {:induction false} GroupIsTermsAt(patterns: seq<Pattern>, items: set<Item>, spans: seq<Span>, start: nat, end: nat, grouped: seq<nat>)
    requires ItemsMatch(patterns, items) && Accounted(patterns, items, spans, [], -1) && AllBefore(spans, items)
    requires grouped != [] && Ascending(grouped) && forall t :: t in grouped ==> Item(start, end, t) in items
    requires forall x :: x in items ==> Precedes(start, end, x.start, x.end) || (x.start == start && x.end == end && x.term in grouped)
    ensures grouped == TermsAt(patterns, start, end, |patterns|)
  {
    assert Item(start, end, grouped[0]) in items;
    assert !Lists(spans, start, end);
    forall t: nat | t < |patterns| && Matches(patterns[t], start, end) ensures t in grouped {
      assert Queued(items, t, start);
      var x :| x in items && x.term == t && x.start <= start;
    }
    AscendingIsTermsAt(patterns, start, end, |patterns|, grouped);
  }

  lemma {:induction false} AscendingIsTermsAt(patterns: seq<Pattern>, start: nat, end: nat, n: nat, ts: seq<nat>)
    requires n <= |patterns| && Ascending(ts)
    requires forall t: nat :: t in ts <==> t < n && Matches(patterns[t], start, end)
    ensures ts == TermsAt(patterns, start, end, n)
    decreases n
  {
    assert ts != [] ==> ts[|ts| - 1] in ts;
    if n > 0 {
      if n - 1 in ts {
        var rest := ts[..|ts| - 1];
        assert ts == rest + [n - 1];
        AscendingIsTermsAt(patterns, start, end, n - 1, rest);
      } else {
        AscendingIsTermsAt(patterns, start, end, n - 1, ts);
      }
    }
  }

  // ----- The stream is determined --------------------------------------------

  // Whatever order the terms are searched in, only one stream meets the
  // specification: the sorted set of all spans.
  lemma {:induction false} ListingIsUnique(patterns: seq<Pattern>, a: seq<Span>, b: seq<Span>)
    requires IsListing(patterns, a) && IsListing(patterns, b)
    ensures a == b
  {
    SameUpTo(patterns, a, b, if |a| <= |b| then |a| else |b|);
    if |a| < |b| {
      MissingFrom(patterns, b, a);
    } else if |b| < |a| {
      MissingFrom(patterns, a, b);
    }
  }

  lemma {:induction false} SpanIsMatch(patterns: seq<Pattern>, spans: seq<Span>, i: nat) returns (t: nat)
    requires IsListing(patterns, spans) && i < |spans|
    ensures t < |patterns| && Matches(patterns[t], spans[i].start, spans[i].end)
  {
    t := spans[i].terms[0];
    assert t in spans[i].terms;
    TermsAtMatch(patterns, spans[i].start, spans[i].end, |patterns|);
  }

  lemma {:induction false} TermsAtMatch(patterns: seq<Pattern>, start: nat, end: nat, n: nat)
    requires n <= |patterns|
    ensures forall t :: t in TermsAt(patterns, start, end, n) <==> 0 <= t < n && Matches(patterns[t], start, end)
  {
    if n > 0 {
      TermsAtMatch(patterns, start, end, n - 1);
    }
  }

  lemma {:induction false} MissingFrom(patterns: seq<Pattern>, long: seq<Span>, short: seq<Span>)
    requires IsListing(patterns, long) && IsListing(patterns, short) && |short| < |long|
    ensures long[..|short|] != short
  {
    var n := |short|;
    var t := SpanIsMatch(patterns, long, n);
    assert Lists(short, long[n].start, long[n].end);
    var i :| 0 <= i < n && short[i].start == long[n].start && short[i].end == long[n].end;
    assert Precedes(long[i].start, long[i].end, long[n].start, long[n].end);
    assert long[..n][i] != short[i];
  }

  lemma {:induction false} SameUpTo(patterns: seq<Pattern>, a: seq<Span>, b: seq<Span>, n: nat)
    requires IsListing(patterns, a) && IsListing(patterns, b) && n <= |a| && n <= |b|
    ensures a[..n] == b[..n]
    decreases n
  {
    if n > 0 {
      SameUpTo(patterns, a, b, n - 1);
      NotBefore(patterns, a, b, n - 1);
      NotBefore(patterns, b, a, n - 1);
      assert a[..n] == a[..n - 1] + [a[n - 1]] && b[..n] == b[..n - 1] + [b[n - 1]];
    }
  }

  // After a common prefix, one stream's next span cannot precede the other's.
  lemma {:induction false} NotBefore(patterns: seq<Pattern>, a: seq<Span>, b: seq<Span>, k: nat)
    requires IsListing(patterns, a) && IsListing(patterns, b) && k < |a| && k < |b| && a[..k] == b[..k]
    ensures !Precedes(a[k].start, a[k].end, b[k].start, b[k].end)
  {
    var t := SpanIsMatch(patterns, a, k);
    forall i | 0 <= i < k ensures a[i] == b[i] {
      assert a[..k][i] == b[..k][i];
    }
    assert Lists(b, a[k].start, a[k].end);
  }
}
