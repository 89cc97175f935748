// Flattening qpdf's bookmark JSON into a preorder list of outline nodes.
module Bookmarks {
  import opened Common

  // "1.0.2" is modelled as the index path [1, 0, 2] that it spells.
  type Key = seq<nat>

  datatype Outline = Outline(key: Key, title: string, level: nat, parent: Option<Key>,
                             page: nat, hasChildren: bool)

  // One JSON value where a bookmark is expected. The title is already cleaned;
  // the page is None when it is missing or not a proper integer.
  datatype Raw = NotAMapping | Bookmark(title: string, page: Option<int>, kids: Kids)

  // The JSON value where a list of bookmarks is expected.
  datatype Kids = NotAList | Kids(items: seq<Raw>)

  datatype Malformed = ChildrenMalformed | EntryMalformed

  predicate Usable(raw: Raw) {
    raw.Bookmark? && raw.title != "" && raw.page.Some? && raw.page.value >= 1
  }

  function Node(raw: Raw, level: nat, parent: Option<Key>, key: Key): Outline
    requires Usable(raw)
  {
    Outline(key, raw.title, level, parent, raw.page.value, raw.kids.Kids? && raw.kids.items != [])
  }

  function Flatten(values: Kids, level: nat, parent: Option<Key>, path: Key): Result<seq<Outline>, Malformed>
    decreases values, 1, 0
  {
    if values.NotAList? then Err(ChildrenMalformed)
    else FlattenFirst(values, |values.items|, level, parent, path)
  }

  // The outline nodes of the first n values and of everything below them.
  function FlattenFirst(values: Kids, n: nat, level: nat, parent: Option<Key>, path: Key)
    : Result<seq<Outline>, Malformed>
    requires values.Kids? && n <= |values.items|
    decreases values, 0, n
  {
    if n == 0 then Ok([])
    else
      var before := FlattenFirst(values, n - 1, level, parent, path);
      if before.Err? then before
      else
        var raw := values.items[n - 1];
        if raw.NotAMapping? then Err(EntryMalformed)
        else if !Usable(raw) then before
        else
          var key := path + [n - 1];
          var below := Flatten(raw.kids, level + 1, Some(key), key);
          if below.Err? then below
          else Ok(before.value + [Node(raw, level, parent, key)] + below.value)
  }

  // The shared list that the recursive visit appends to.
  class Collector {
    var result: seq<Outline>

    constructor ()
      ensures result == []
    {
      result := [];
    }

    method Visit(values: Kids, level: nat, parent: Option<Key>, path: Key)
      returns (error: Option<Malformed>)
      modifies this
      ensures var r := Flatten(values, level, parent, path);
        if r.Err? then error == Some(r.error) else error == None && result == old(result) + r.value
      decreases values
    {
      if values.NotAList? {
        return Some(ChildrenMalformed);
      }
      for index := 0 to |values.items|
        invariant FlattenFirst(values, index, level, parent, path).Ok?
        invariant result == old(result) + FlattenFirst(values, index, level, parent, path).value
      {
        var raw := values.items[index];
        if raw.NotAMapping? {
          FirstErrorStays(values, index + 1, |values.items|, level, parent, path);
          return Some(EntryMalformed);
        }
        if Usable(raw) {
          var key := path + [index];
          result := result + [Node(raw, level, parent, key)];
          var below := Visit(raw.kids, level + 1, Some(key), key);
          if below.Some? {
            FirstErrorStays(values, index + 1, |values.items|, level, parent, path);
            return below;
          }
        }
      }
      return None;
    }
  }

  lemma {:induction false} FirstErrorStays(values: Kids, n: nat, m: nat, level: nat, parent: Option<Key>, path: Key)
    requires values.Kids? && n <= m <= |values.items|
    requires FlattenFirst(values, n, level, parent, path).Err?
    ensures FlattenFirst(values, m, level, parent, path) == FlattenFirst(values, n, level, parent, path)
    decreases m
  {
    if n < m {
      FirstErrorStays(values, n, m - 1, level, parent, path);
    }
  }

  // ----- The list is a preorder -------------------------------------------

  // Node i hangs below the list's own parent at the base level, or below an
  // earlier node exactly one level up with nothing shallower than i between.
  ghost predicate HangsFrom(os: seq<Outline>, i: nat, level: nat, parent: Option<Key>)
    requires i < |os|
  {
    if os[i].level == level then os[i].parent == parent
    else exists j :: IsParentOf(os, j, i)
  }

  ghost predicate IsParentOf(os: seq<Outline>, j: int, i: nat)
    requires i < |os|
  {
    && 0 <= j < i
    && os[i].parent == Some(os[j].key)
    && os[i].level == os[j].level + 1
    && forall k :: j < k < i ==> os[k].level >= os[i].level
  }

  ghost predicate Preorder(os: seq<Outline>, level: nat, parent: Option<Key>) {
    forall i :: 0 <= i < |os| ==> os[i].level >= level && HangsFrom(os, i, level, parent)
  }

  lemma {:induction false} AppendSubtree(before: seq<Outline>, node: Outline, below: seq<Outline>, level: nat, parent: Option<Key>)
    requires Preorder(before, level, parent)
    requires node.level == level && node.parent == parent
    requires Preorder(below, level + 1, Some(node.key))
    ensures Preorder(before + [node] + below, level, parent)
  {
    var os := before + [node] + below;
    hide HangsFrom, IsParentOf;
    forall i | 0 <= i < |os| ensures os[i].level >= level && HangsFrom(os, i, level, parent) {
      if i < |before| {
        assert HangsFrom(before, i, level, parent);
        EarlierStillHangs(before, [node] + below, i, level, parent);
        assert before + ([node] + below) == os;
      } else if i > |before| {
        var b: nat := i - |before| - 1;
        assert os[i] == below[b] && HangsFrom(below, b, level + 1, Some(node.key));
        BelowHangs(before, node, below, b, level, parent);
      } else {
        NodeHangs(os, i, level, parent);
      }
    }
  }

  lemma {:induction false} NodeHangs(os: seq<Outline>, i: nat, level: nat, parent: Option<Key>)
    requires i < |os| && os[i].level == level && os[i].parent == parent
    ensures HangsFrom(os, i, level, parent)
  {
  }

  lemma {:induction false} EarlierStillHangs(before: seq<Outline>, more: seq<Outline>, i: nat, level: nat, parent: Option<Key>)
    requires i < |before| && HangsFrom(before, i, level, parent)
    ensures HangsFrom(before + more, i, level, parent)
  {
    if before[i].level != level {
      var j :| IsParentOf(before, j, i);
      assert IsParentOf(before + more, j, i);
    }
  }

  lemma {:induction false} BelowHangs(before: seq<Outline>, node: Outline, below: seq<Outline>, b: nat, level: nat, parent: Option<Key>)
    requires b < |below| && Preorder(below, level + 1, Some(node.key)) && node.level == level
    ensures HangsFrom(before + [node] + below, |before| + 1 + b, level, parent)
  {
    hide *;
    InPreorder(below, level + 1, Some(node.key), b);
    var top := before + [node];
    if below[b].level == level + 1 {
      ChildHangs(top, below, b);
      HangsBy(top + below, |top| - 1, |top| + b, level, parent);
    } else {
      var j := ParentIn(below, b, level + 1, Some(node.key));
      ParentShifts(top, below, j, b);
      HangsBy(top + below, |top| + j, |top| + b, level, parent);
    }
  }

  lemma {:induction false} InPreorder(os: seq<Outline>, level: nat, parent: Option<Key>, i: nat)
    requires Preorder(os, level, parent) && i < |os|
    ensures os[i].level >= level && HangsFrom(os, i, level, parent)
  {
  }

  lemma {:induction false} ParentIn(os: seq<Outline>, i: nat, level: nat, parent: Option<Key>) returns (j: int)
    requires i < |os| && HangsFrom(os, i, level, parent) && os[i].level != level
    ensures IsParentOf(os, j, i)
  {
    j :| IsParentOf(os, j, i);
  }

  lemma {:induction false} HangsBy(os: seq<Outline>, j: int, i: nat, level: nat, parent: Option<Key>)
    requires i < |os| && IsParentOf(os, j, i) && os[i].level != level
    ensures HangsFrom(os, i, level, parent)
  {
  }

  // A top node of the subtree has the node just before it for its parent.
  lemma {:induction false} ChildHangs(top: seq<Outline>, below: seq<Outline>, b: nat)
    requires top != [] && b < |below|
    requires var node := top[|top| - 1]; Preorder(below, node.level + 1, Some(node.key)) && below[b].level == node.level + 1
    ensures IsParentOf(top + below, |top| - 1, |top| + b)
  {
    var node, os := top[|top| - 1], top + below;
    assert HangsFrom(below, b, node.level + 1, Some(node.key));
    forall k | |top| <= k < |top| + b ensures os[k].level >= node.level + 1 {
      assert os[k] == below[k - |top|];
    }
  }

  lemma {:induction false} ParentShifts(top: seq<Outline>, below: seq<Outline>, j: int, b: nat)
    requires b < |below| && IsParentOf(below, j, b)
    ensures IsParentOf(top + below, |top| + j, |top| + b)
  {
    var os := top + below;
    forall k | |top| + j < k < |top| + b ensures os[k].level >= below[b].level {
      assert os[k] == below[k - |top|];
    }
  }

  lemma {:induction false} FlattenIsPreorder(values: Kids, level: nat, parent: Option<Key>, path: Key)
    requires Flatten(values, level, parent, path).Ok?
    ensures Preorder(Flatten(values, level, parent, path).value, level, parent)
    decreases values, 1, 0
  {
    FlattenFirstIsPreorder(values, |values.items|, level, parent, path);
  }

  lemma {:induction false} FlattenFirstIsPreorder(values: Kids, n: nat, level: nat, parent: Option<Key>, path: Key)
    requires values.Kids? && n <= |values.items| && FlattenFirst(values, n, level, parent, path).Ok?
    ensures Preorder(FlattenFirst(values, n, level, parent, path).value, level, parent)
    decreases values, 0, n
  {
    if n > 0 {
      FlattenFirstIsPreorder(values, n - 1, level, parent, path);
      var raw := values.items[n - 1];
      if Usable(raw) {
        var key := path + [n - 1];
        FlattenIsPreorder(raw.kids, level + 1, Some(key), key);
        AppendSubtree(FlattenFirst(values, n - 1, level, parent, path).value, Node(raw, level, parent, key),
                      Flatten(raw.kids, level + 1, Some(key), key).value, level, parent);
      }
    }
  }

  // ----- The list holds exactly the reachable bookmarks, in document order ----

  // The bookmark at an index path, if it and all its ancestors are usable.
  function At(values: Kids, steps: Key): (r: Option<Raw>)
    ensures r.Some? ==> steps != [] && Usable(r.value)
    decreases |steps|
  {
    if steps == [] || values.NotAList? || steps[0] >= |values.items| || !Usable(values.items[steps[0]]) then None
    else if |steps| == 1 then Some(values.items[steps[0]])
    else At(values.items[steps[0]].kids, steps[1..])
  }

  // Document order on index paths.
  predicate Before(a: Key, b: Key)
    decreases |a|
  {
    if b == [] then false
    else if a == [] then true
    else a[0] < b[0] || (a[0] == b[0] && Before(a[1..], b[1..]))
  }

  lemma {:induction false} BeforeUnderPrefix(p: Key, a: Key, b: Key)
    ensures Before(p + a, p + b) == Before(a, b)
    decreases |p|
  {
    if p == [] {
      assert p + a == a && p + b == b;
    } else {
      BeforeUnderPrefix(p[1..], a, b);
      assert (p + a)[1..] == p[1..] + a && (p + b)[1..] == p[1..] + b;
    }
  }

  lemma {:induction false} BeforeIsStrict(a: Key)
    ensures !Before(a, a)
    decreases |a|
  {
    if a != [] {
      BeforeIsStrict(a[1..]);
    }
  }

  ghost predicate Under(key: Key, path: Key) {
    |path| < |key| && key[..|path|] == path
  }

  // Node o of a list flattened at base path and level is the bookmark its key leads to.
  ghost predicate Faithful(o: Outline, values: Kids, level: nat, path: Key) {
    && Under(o.key, path)
    && At(values, o.key[|path|..]).Some?
    && var raw := At(values, o.key[|path|..]).value;
       && o.title == raw.title && Some(o.page as int) == raw.page
       && o.level + 1 == level + |o.key| - |path|
       && o.hasChildren == (raw.kids.Kids? && raw.kids.items != [])
  }

  // In document order, faithful, and complete up to the first n values.
  ghost predicate Lists(os: seq<Outline>, values: Kids, n: nat, level: nat, path: Key) {
    AllFaithful(os, values, n, level, path) && InOrder(os) && Complete(os, values, n, path)
  }

  ghost predicate AllFaithful(os: seq<Outline>, values: Kids, n: nat, level: nat, path: Key) {
    forall i :: 0 <= i < |os| ==> Faithful(os[i], values, level, path) && os[i].key[|path|] < n
  }

  ghost predicate InOrder(os: seq<Outline>) {
    forall i, j :: 0 <= i < j < |os| ==> Before(os[i].key, os[j].key)
  }

  ghost predicate Complete(os: seq<Outline>, values: Kids, n: nat, path: Key) {
    forall steps :: At(values, steps).Some? && steps[0] < n ==> Holds(os, path + steps)
  }

  ghost predicate Holds(os: seq<Outline>, key: Key) {
    exists i :: 0 <= i < |os| && os[i].key == key
  }

  lemma {:induction false} FlattenLists(values: Kids, level: nat, parent: Option<Key>, path: Key)
    requires Flatten(values, level, parent, path).Ok?
    ensures values.Kids? && Lists(Flatten(values, level, parent, path).value, values, |values.items|, level, path)
    decreases values, 1, 0
  {
    FlattenFirstLists(values, |values.items|, level, parent, path);
  }

  lemma {:induction false} FlattenFirstLists(values: Kids, n: nat, level: nat, parent: Option<Key>, path: Key)
    requires values.Kids? && n <= |values.items| && FlattenFirst(values, n, level, parent, path).Ok?
    ensures Lists(FlattenFirst(values, n, level, parent, path).value, values, n, level, path)
    decreases values, 0, n
  {
    if n > 0 {
      FlattenFirstLists(values, n - 1, level, parent, path);
      var before := FlattenFirst(values, n - 1, level, parent, path).value;
      var raw := values.items[n - 1];
      if Usable(raw) {
        var key := path + [n - 1];
        FlattenLists(raw.kids, level + 1, Some(key), key);
        ListsAppend(values, n, level, parent, path, before, Flatten(raw.kids, level + 1, Some(key), key).value);
      }
    }
  }

  lemma {:induction false} ListsAppend(values: Kids, n: nat, level: nat, parent: Option<Key>, path: Key,
                    before: seq<Outline>, below: seq<Outline>)
    requires values.Kids? && 0 < n <= |values.items| && Usable(values.items[n - 1])
    requires Lists(before, values, n - 1, level, path)
    requires values.items[n - 1].kids.Kids?
    requires Lists(below, values.items[n - 1].kids, |values.items[n - 1].kids.items|, level + 1, path + [n - 1])
    ensures Lists(before + [Node(values.items[n - 1], level, parent, path + [n - 1])] + below, values, n, level, path)
  {
    var node := Node(values.items[n - 1], level, parent, path + [n - 1]);
    var os := before + [node] + below;
    forall b | 0 <= b < |below| ensures Faithful(below[b], values, level, path) && below[b].key[|path|] == n - 1 {
      BelowIsFaithful(values, n, level, path, below[b]);
    }
    assert node.key[|path|..] == [n - 1];
    assert Faithful(node, values, level, path);
    assert AllFaithful(os, values, n, level, path);
    AppendKeepsOrder(before, node, below, path, n - 1);
    AppendIsComplete(values, n, path, before, node, below);
  }

  lemma {:induction false} AppendIsComplete(values: Kids, n: nat, path: Key, before: seq<Outline>, node: Outline, below: seq<Outline>)
    requires values.Kids? && 0 < n <= |values.items| && Usable(values.items[n - 1])
    requires node.key == path + [n - 1] && values.items[n - 1].kids.Kids?
    requires Complete(before, values, n - 1, path)
    requires Complete(below, values.items[n - 1].kids, |values.items[n - 1].kids.items|, node.key)
    ensures Complete(before + [node] + below, values, n, path)
  {
    var kids := values.items[n - 1].kids;
    var os := before + [node] + below;
    forall steps | At(values, steps).Some? && steps[0] < n ensures Holds(os, path + steps) {
      if steps[0] < n - 1 {
        var i :| 0 <= i < |before| && before[i].key == path + steps;
        assert os[i].key == path + steps;
      } else if |steps| == 1 {
        assert steps == [n - 1];
        assert os[|before|].key == path + steps;
      } else {
        assert At(kids, steps[1..]).Some?;
        var i :| 0 <= i < |below| && below[i].key == node.key + steps[1..];
        assert node.key + steps[1..] == path + steps;
        assert os[|before| + 1 + i].key == path + steps;
      }
    }
  }

  lemma {:induction false} AppendKeepsOrder(before: seq<Outline>, node: Outline, below: seq<Outline>, path: Key, step: nat)
    requires node.key == path + [step]
    requires forall i :: 0 <= i < |before| ==> Under(before[i].key, path) && before[i].key[|path|] < step
    requires forall i :: 0 <= i < |below| ==> Under(below[i].key, node.key)
    requires forall i, j :: 0 <= i < j < |before| ==> Before(before[i].key, before[j].key)
    requires forall i, j :: 0 <= i < j < |below| ==> Before(below[i].key, below[j].key)
    ensures var os := before + [node] + below; forall i, j :: 0 <= i < j < |os| ==> Before(os[i].key, os[j].key)
  {
    var os := before + [node] + below;
    var at := |before|;
    forall i, j | 0 <= i < j < |os| ensures Before(os[i].key, os[j].key) {
      var a, b := os[i].key, os[j].key;
      if j < at {
      } else if i < at {
        if j > at {
          assert os[j] == below[j - at - 1];
          assert b[|path|] == b[..|node.key|][|path|] == step;
          assert b[..|path|] == b[..|node.key|][..|path|] == path;
        }
        BeforeUnderPrefix(path, a[|path|..], b[|path|..]);
        assert a == path + a[|path|..] && b == path + b[|path|..];
      } else if i == at {
        assert os[j] == below[j - at - 1];
        BeforeUnderPrefix(a, [], b[|a|..]);
        assert b == a + b[|a|..] && a == a + [];
      } else {
        assert os[i] == below[i - at - 1] && os[j] == below[j - at - 1];
      }
    }
  }

  lemma {:induction false} BelowIsFaithful(values: Kids, n: nat, level: nat, path: Key, o: Outline)
    requires values.Kids? && 0 < n <= |values.items| && Usable(values.items[n - 1])
    requires Faithful(o, values.items[n - 1].kids, level + 1, path + [n - 1])
    ensures Faithful(o, values, level, path) && o.key[|path|] == n - 1
  {
    var key := path + [n - 1];
    var steps := o.key[|path|..];
    assert o.key[..|path|] == o.key[..|key|][..|path|] == path;
    assert o.key[|path|] == o.key[..|key|][|path|] == n - 1;
    assert steps[1..] == o.key[|key|..];
  }

  // Keys are distinct because document order is strict.
  lemma {:induction false} KeysAreDistinct(os: seq<Outline>, values: Kids, n: nat, level: nat, path: Key)
    requires Lists(os, values, n, level, path)
    ensures forall i, j :: 0 <= i < j < |os| ==> os[i].key != os[j].key
  {
    forall i, j | 0 <= i < j < |os| ensures os[i].key != os[j].key {
      BeforeIsStrict(os[i].key);
    }
  }

  // ----- When the scan fails ------------------------------------------------------

  // What is wrong with the value at an index path that the scan comes to: a list of
  // bookmarks that is none, or an entry that is none.
  function MalformedAt(values: Kids, steps: Key): Option<Malformed>
    decreases |steps|, 0
  {
    if values.NotAList? then (if steps == [] then Some(ChildrenMalformed) else None)
    else if steps == [] || steps[0] >= |values.items| then None
    else MalformedBelow(values.items[steps[0]], steps[1..])
  }

  function MalformedBelow(raw: Raw, steps: Key): Option<Malformed>
    decreases |steps|, 1
  {
    if raw.NotAMapping? then (if steps == [] then Some(EntryMalformed) else None)
    else if !Usable(raw) then None
    else MalformedAt(raw.kids, steps)
  }

  // The malformed value that the scan comes to first.
  ghost predicate FirstMalformed(values: Kids, at: Key, e: Malformed) {
    && MalformedAt(values, at) == Some(e)
    && forall steps :: MalformedAt(values, steps).Some? && steps != at ==> Before(at, steps)
  }

  // The same among the first n values.
  ghost predicate FirstMalformedAmong(values: Kids, n: nat, at: Key, e: Malformed) {
    && MalformedAt(values, at) == Some(e) && at != [] && at[0] < n
    && forall steps :: MalformedAt(values, steps).Some? && steps != [] && steps[0] < n && steps != at ==> Before(at, steps)
  }

  ghost predicate NoneMalformedAmong(values: Kids, n: nat) {
    forall steps :: MalformedAt(values, steps).Some? && steps != [] ==> steps[0] >= n
  }

  // The scan succeeds exactly when nothing it comes to is malformed, and otherwise reports
  // the first such value in document order.
  lemma {:induction false} FlattenFails(values: Kids, level: nat, parent: Option<Key>, path: Key) returns (at: Key)
    ensures var r := Flatten(values, level, parent, path);
      && (r.Ok? <==> forall steps :: MalformedAt(values, steps).None?)
      && (r.Err? ==> FirstMalformed(values, at, r.error))
    decreases values, 1, 0
  {
    at := [];
    if values.NotAList? {
      assert MalformedAt(values, []) == Some(ChildrenMalformed);
    } else {
      at := FlattenFirstFails(values, |values.items|, level, parent, path);
      assert MalformedAt(values, []).None?;
      if Flatten(values, level, parent, path).Err? {
        assert MalformedAt(values, at).Some?;
      }
    }
  }

  lemma {:induction false} FlattenFirstFails(values: Kids, n: nat, level: nat, parent: Option<Key>, path: Key) returns (at: Key)
    requires values.Kids? && n <= |values.items|
    ensures var r := FlattenFirst(values, n, level, parent, path);
      && (r.Ok? <==> NoneMalformedAmong(values, n))
      && (r.Err? ==> FirstMalformedAmong(values, n, at, r.error))
    decreases values, 0, n
  {
    at := [];
    if n > 0 {
      at := FlattenFirstFails(values, n - 1, level, parent, path);
      var raw := values.items[n - 1];
      if FlattenFirst(values, n - 1, level, parent, path).Err? {
        EarlierIsFirst(values, n, at, FlattenFirst(values, n - 1, level, parent, path).error);
      } else if raw.NotAMapping? {
        at := [n - 1];
        OnlyEntryItself(values, n);
      } else if !Usable(raw) {
        NothingBelow(values, n);
      } else {
        var key := path + [n - 1];
        var below := FlattenFails(raw.kids, level + 1, Some(key), key);
        at := [n - 1] + below;
        BelowIsNext(values, n, below, Flatten(raw.kids, level + 1, Some(key), key));
      }
    }
  }

  lemma {:induction false} EarlierIsFirst(values: Kids, n: nat, at: Key, e: Malformed)
    requires n > 0 && FirstMalformedAmong(values, n - 1, at, e)
    ensures FirstMalformedAmong(values, n, at, e) && !NoneMalformedAmong(values, n)
  {
  }

  lemma {:induction false} OnlyEntryItself(values: Kids, n: nat)
    requires values.Kids? && 0 < n <= |values.items| && values.items[n - 1].NotAMapping? && NoneMalformedAmong(values, n - 1)
    ensures FirstMalformedAmong(values, n, [n - 1], EntryMalformed) && !NoneMalformedAmong(values, n)
  {
    assert MalformedAt(values, [n - 1]) == Some(EntryMalformed);
    forall steps | MalformedAt(values, steps).Some? && steps != [] && steps[0] < n && steps != [n - 1]
      ensures Before([n - 1], steps)
    {
      assert steps == [steps[0]] + steps[1..];
    }
  }

  lemma {:induction false} NothingBelow(values: Kids, n: nat)
    requires values.Kids? && 0 < n <= |values.items| && !values.items[n - 1].NotAMapping? && !Usable(values.items[n - 1])
    requires NoneMalformedAmong(values, n - 1)
    ensures NoneMalformedAmong(values, n)
  {
  }

  lemma {:induction false} BelowIsNext(values: Kids, n: nat, at: Key, r: Result<seq<Outline>, Malformed>)
    requires values.Kids? && 0 < n <= |values.items| && Usable(values.items[n - 1]) && NoneMalformedAmong(values, n - 1)
    requires var kids := values.items[n - 1].kids;
      && (r.Ok? <==> forall steps :: MalformedAt(kids, steps).None?)
      && (r.Err? ==> FirstMalformed(kids, at, r.error))
    ensures r.Ok? <==> NoneMalformedAmong(values, n)
    ensures r.Err? ==> FirstMalformedAmong(values, n, [n - 1] + at, r.error)
  {
    var kids := values.items[n - 1].kids;
    forall steps | steps != [] && steps[0] == n - 1 ensures MalformedAt(values, steps) == MalformedAt(kids, steps[1..]) {
    }
    forall below: Key ensures MalformedAt(values, [n - 1] + below) == MalformedAt(kids, below) {
      assert ([n - 1] + below)[1..] == below;
    }
    hide MalformedAt;
    if r.Ok? {
      forall steps | steps != [] && steps[0] < n ensures MalformedAt(values, steps).None? {
        var rest := steps[1..];
        assert MalformedAt(kids, rest).None?;
      }
    } else {
      assert MalformedAt(values, [n - 1] + at).Some? && ([n - 1] + at)[0] == n - 1;
      forall steps | MalformedAt(values, steps).Some? && steps != [] && steps[0] < n && steps != [n - 1] + at
        ensures Before([n - 1] + at, steps)
      {
        assert steps[0] == n - 1 && steps == [n - 1] + steps[1..];
        BeforeUnderPrefix([n - 1], at, steps[1..]);
      }
    }
  }

  // ----- The extracted outline --------------------------------------------

  function Outlines(roots: Kids): Result<seq<Outline>, Malformed> {
    Flatten(roots, 1, None, [])
  }

  method ExtractOutlines(roots: Kids) returns (r: Result<seq<Outline>, Malformed>)
    ensures r == Outlines(roots)
  {
    var collector := new Collector();
    var error := collector.Visit(roots, 1, None, []);
    assert Outlines(roots).Ok? ==> [] + Outlines(roots).value == Outlines(roots).value;
    r := if error.Some? then Err(error.value) else Ok(collector.result);
  }

  // Extraction fails exactly when something the scan comes to is malformed, with the first
  // such value's error.
  lemma {:induction false} ExtractionFailsIff(roots: Kids) returns (at: Key)
    ensures Outlines(roots).Ok? <==> forall steps :: MalformedAt(roots, steps).None?
    ensures Outlines(roots).Err? ==> FirstMalformed(roots, at, Outlines(roots).error)
  {
    at := FlattenFails(roots, 1, None, []);
  }

  // The outline is the document-order listing of the reachable bookmarks: each
  // once, at the level its key's length says, below its nearest shallower node.
  lemma {:induction false} OutlinesArePreorderListing(roots: Kids)
    requires Outlines(roots).Ok?
    ensures var os := Outlines(roots).value;
      && Preorder(os, 1, None)
      && InOrder(os)
      && (forall i, j :: 0 <= i < j < |os| ==> os[i].key != os[j].key)
      && (forall i :: 0 <= i < |os| ==> Faithful(os[i], roots, 1, []) && os[i].level == |os[i].key|)
      && (forall steps :: At(roots, steps).Some? ==> Holds(os, steps))
      && (forall i :: 0 <= i < |os| ==> os[i].page >= 1 && os[i].level >= 1)
  {
    var os := Outlines(roots).value;
    FlattenIsPreorder(roots, 1, None, []);
    FlattenLists(roots, 1, None, []);
    KeysAreDistinct(os, roots, |roots.items|, 1, []);
    forall steps | At(roots, steps).Some? ensures Holds(os, steps) {
      assert [] + steps == steps;
    }
    forall i | 0 <= i < |os| ensures os[i].page >= 1 {
      assert Faithful(os[i], roots, 1, []);
      assert os[i].key[0..] == os[i].key;
    }
  }

  // The list of bookmarks at an index path: the roots, or the children of a listed bookmark.
  function KidsAt(roots: Kids, steps: Key): Option<Kids> {
    if steps == [] then Some(roots) else if At(roots, steps).Some? then Some(At(roots, steps).value.kids) else None
  }

  // Every bookmark with a title and a page from one on is listed, at the top or below a
  // listed one.
  lemma {:induction false} EveryTitledBookmarkIsListed(roots: Kids, steps: Key, k: nat)
    requires Outlines(roots).Ok?
    requires KidsAt(roots, steps).Some? && KidsAt(roots, steps).value.Kids? && k < |KidsAt(roots, steps).value.items|
    requires var raw := KidsAt(roots, steps).value.items[k];
      raw.Bookmark? && raw.title != "" && raw.page.Some? && raw.page.value >= 1
    ensures Holds(Outlines(roots).value, steps + [k])
  {
    OutlinesArePreorderListing(roots);
    KidsAreBelow(roots, steps, k);
  }

  lemma {:induction false} KidsAreBelow(roots: Kids, steps: Key, k: nat)
    requires KidsAt(roots, steps).Some? && KidsAt(roots, steps).value.Kids? && k < |KidsAt(roots, steps).value.items|
    requires Usable(KidsAt(roots, steps).value.items[k])
    ensures At(roots, steps + [k]) == Some(KidsAt(roots, steps).value.items[k])
    decreases |steps|
  {
    if steps != [] {
      var top, rest := roots.items[steps[0]], steps[1..];
      assert (steps + [k])[1..] == rest + [k];
      assert KidsAt(top.kids, rest) == KidsAt(roots, steps);
      KidsAreBelow(top.kids, rest, k);
    }
  }
}
