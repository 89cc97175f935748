// Splitting paragraphs that the OCR pipeline merged across columns and pages back
// into the text of their original places.
module MergeChains {
  import opened Common

  // key is the line's geometry and span content, None when malformed; cross holds
  // each span's cross-page marker.
  datatype Line = Line(key: Option<int>, cross: seq<bool>)

  datatype Kind = Text | Index | OtherKind

  // original is the preprocessed block's lines, None when that block is missing,
  // ambiguous or itself marked; nested says that a marker sits elsewhere inside.
  datatype Block = Block(kind: Kind, deleted: bool, nested: bool, lines: seq<Line>, original: Option<seq<Line>>)

  datatype BoxField = NoBox | BadBox | GoodBox(box: (int, int, int, int))

  // scaled is the block's box in content-list coordinates, None when the page size
  // or the box is invalid.
  datatype Record = Record(page: int, order: nat, block: Block, scaled: Option<(int, int, int, int)>)

  datatype Page = Page(index: int, blocks: seq<(Block, Option<(int, int, int, int)>)>)

  datatype Item = Item(kind: string, page: Option<int>, box: BoxField, text: string)

  datatype Unavailable = Unavailable

  type Chain = seq<Record>

  predicate Marked(b: Block) {
    b.deleted || b.nested || exists l :: l in b.lines && true in l.cross
  }

  // ----- Records in reading order ------------------------------------------------

  predicate Precedes(a: Record, b: Record) {
    a.page < b.page || (a.page == b.page && a.order < b.order)
  }

  predicate InReadingOrder(rs: seq<Record>) {
    forall i, j :: 0 <= i < j < |rs| ==> Precedes(rs[i], rs[j])
  }

  function PageRecords(page: Page, n: nat): (rs: seq<Record>)
    requires n <= |page.blocks|
    ensures |rs| == n && forall i :: 0 <= i < n ==> rs[i] == Record(page.index, i, page.blocks[i].0, page.blocks[i].1)
  {
    if n == 0 then []
    else PageRecords(page, n - 1) + [Record(page.index, n - 1, page.blocks[n - 1].0, page.blocks[n - 1].1)]
  }

  function Insert(rs: seq<Record>, r: Record): seq<Record> {
    if rs == [] || Precedes(r, rs[0]) then [r] + rs else [rs[0]] + Insert(rs[1..], r)
  }

  function SortRecords(rs: seq<Record>): seq<Record> {
    if rs == [] then [] else Insert(SortRecords(rs[..|rs| - 1]), rs[|rs| - 1])
  }

  lemma {:induction false} InsertAddsOne(rs: seq<Record>, r: Record)
    ensures multiset(Insert(rs, r)) == multiset(rs) + multiset{r}
  {
    if rs != [] && !Precedes(r, rs[0]) {
      assert rs == [rs[0]] + rs[1..];
      InsertAddsOne(rs[1..], r);
    }
  }

  lemma {:induction false} SortPermutes(rs: seq<Record>)
    ensures multiset(SortRecords(rs)) == multiset(rs)
  {
    if rs != [] {
      var before, last := rs[..|rs| - 1], rs[|rs| - 1];
      assert rs == before + [last];
      SortPermutes(before);
      InsertAddsOne(SortRecords(before), last);
    }
  }

  predicate SamePlace(a: Record, b: Record) {
    a.page == b.page && a.order == b.order
  }

  lemma {:induction false} InsertKeepsOrder(rs: seq<Record>, r: Record)
    requires InReadingOrder(rs) && forall i :: 0 <= i < |rs| ==> !SamePlace(rs[i], r)
    ensures InReadingOrder(Insert(rs, r))
    ensures forall x :: x in Insert(rs, r) <==> x in rs || x == r
  {
    if rs != [] && !Precedes(r, rs[0]) {
      var rest := rs[1..];
      assert forall i :: 0 <= i < |rest| ==> rest[i] == rs[i + 1];
      InsertKeepsOrder(rest, r);
      var out := Insert(rest, r);
      forall j | 0 <= j < |out| ensures Precedes(rs[0], out[j]) {
        assert out[j] in out;
      }
    }
  }

  lemma {:induction false} SortedInReadingOrder(rs: seq<Record>)
    requires forall i, j :: 0 <= i < j < |rs| ==> !SamePlace(rs[i], rs[j])
    ensures InReadingOrder(SortRecords(rs)) && multiset(SortRecords(rs)) == multiset(rs)
    ensures forall x :: x in SortRecords(rs) <==> x in rs
  {
    SortPermutes(rs);
    if rs != [] {
      var before, last := rs[..|rs| - 1], rs[|rs| - 1];
      SortedInReadingOrder(before);
      assert rs == before + [last];
      forall i | 0 <= i < |SortRecords(before)| ensures !SamePlace(SortRecords(before)[i], last) {
        assert SortRecords(before)[i] in SortRecords(before);
      }
      InsertKeepsOrder(SortRecords(before), last);
    }
  }

  // The records of the first n pages, unless a page or block is unsupported.
  function Collected(pages: seq<Page>, n: nat): Result<seq<Record>, Unavailable>
    requires n <= |pages|
  {
    if n == 0 then Ok([])
    else
      var before := Collected(pages, n - 1);
      var page := pages[n - 1];
      if before.Err? then before
      else if page.index < 0 || exists i :: 0 <= i < n - 1 && pages[i].index == page.index then Err(Unavailable)
      else if exists b :: b in page.blocks && Marked(b.0) && b.0.kind == OtherKind then Err(Unavailable)
      else Ok(before.value + PageRecords(page, |page.blocks|))
  }

  lemma {:induction false} CollectedArePlacedApart(pages: seq<Page>, n: nat)
    requires n <= |pages| && Collected(pages, n).Ok?
    ensures var rs := Collected(pages, n).value;
      && (forall i, j :: 0 <= i < j < |rs| ==> !SamePlace(rs[i], rs[j]))
      && (forall r :: r in rs ==> exists i :: 0 <= i < n && pages[i].index == r.page)
      && (forall r :: r in rs && r.block.kind == OtherKind ==> !Marked(r.block))
  {
    if n > 0 {
      CollectedArePlacedApart(pages, n - 1);
      var before, more := Collected(pages, n - 1).value, PageRecords(pages[n - 1], |pages[n - 1].blocks|);
      forall i, j | 0 <= i < |before| && 0 <= j < |more| ensures !SamePlace(before[i], more[j]) {
        assert before[i] in before;
      }
      forall r | r in more ensures r.page == pages[n - 1].index && (r.block.kind == OtherKind ==> !Marked(r.block)) {
        var i :| 0 <= i < |more| && more[i] == r;
        assert pages[n - 1].blocks[i] in pages[n - 1].blocks;
      }
    }
  }

  // ----- Chains --------------------------------------------------------------------

  predicate IsProse(r: Record) {
    r.block.kind != OtherKind
  }

  predicate IsOwner(r: Record) {
    IsProse(r) && !r.block.deleted && r.block.lines != []
  }

  predicate IsDeleted(r: Record) {
    IsProse(r) && r.block.deleted
  }

  // A deleted paragraph joins the last opened chain if that chain's owner has its kind.
  function Chains(rs: seq<Record>, n: nat): Result<seq<Chain>, Unavailable>
    requires n <= |rs|
  {
    if n == 0 then Ok([])
    else
      var before, r := Chains(rs, n - 1), rs[n - 1];
      if before.Err? then before
      else if IsDeleted(r) then
        if Accepts(before.value, r) then Ok(Joined(before.value, r)) else Err(Unavailable)
      else if IsOwner(r) then Ok(before.value + [[r]])
      else before
  }

  predicate Accepts(chains: seq<Chain>, r: Record) {
    && r.block.lines == [] && chains != []
    && chains[|chains| - 1] != [] && chains[|chains| - 1][0].block.kind == r.block.kind
  }

  function Joined(chains: seq<Chain>, r: Record): seq<Chain>
    requires chains != []
  {
    chains[..|chains| - 1] + [chains[|chains| - 1] + [r]]
  }

  function Flat(chains: seq<Chain>): seq<Record> {
    if chains == [] then [] else Flat(chains[..|chains| - 1]) + chains[|chains| - 1]
  }

  // The owners and deleted paragraphs, in order.
  function Relevant(rs: seq<Record>, n: nat): seq<Record>
    requires n <= |rs|
  {
    if n == 0 then []
    else if IsOwner(rs[n - 1]) || IsDeleted(rs[n - 1]) then Relevant(rs, n - 1) + [rs[n - 1]]
    else Relevant(rs, n - 1)
  }

  // One owner, then deleted paragraphs of its kind.
  ghost predicate WellFormed(chain: Chain) {
    && chain != [] && IsOwner(chain[0])
    && forall k :: 0 < k < |chain| ==> IsDeleted(chain[k]) && chain[k].block.lines == [] && chain[k].block.kind == chain[0].block.kind
  }

  // The chains cut the relevant records into consecutive pieces: none is lost,
  // repeated or moved.
  lemma {:induction false} ChainsPartitionRecords(rs: seq<Record>, n: nat)
    requires n <= |rs| && Chains(rs, n).Ok?
    ensures Flat(Chains(rs, n).value) == Relevant(rs, n)
    ensures forall c :: c in Chains(rs, n).value ==> WellFormed(c)
  {
    if n > 0 {
      ChainsPartitionRecords(rs, n - 1);
      var before, r := Chains(rs, n - 1).value, rs[n - 1];
      if IsDeleted(r) {
        JoiningExtends(before, r);
      } else if IsOwner(r) {
        OpeningExtends(before, r);
      }
      hide Flat, WellFormed, Joined;
    }
  }

  lemma {:induction false} JoiningExtends(before: seq<Chain>, r: Record)
    requires (forall c :: c in before ==> WellFormed(c)) && IsDeleted(r) && Accepts(before, r)
    ensures Flat(Joined(before, r)) == Flat(before) + [r]
    ensures forall c :: c in Joined(before, r) ==> WellFormed(c)
  {
    var rest, last := before[..|before| - 1], before[|before| - 1];
    assert last in before;
    assert Joined(before, r)[..|before| - 1] == rest;
    assert Flat(rest) + (last + [r]) == Flat(rest) + last + [r];
  }

  lemma {:induction false} OpeningExtends(before: seq<Chain>, r: Record)
    requires (forall c :: c in before ==> WellFormed(c)) && IsOwner(r)
    ensures Flat(before + [[r]]) == Flat(before) + [r]
    ensures forall c :: c in before + [[r]] ==> WellFormed(c)
  {
    assert (before + [[r]])[..|before|] == before;
  }

  predicate IsMerged(chain: Chain) {
    |chain| > 1 || (|chain| == 1 && Marked(chain[0].block))
  }

  function Merged(chains: seq<Chain>, n: nat): (kept: seq<Chain>)
    requires n <= |chains|
    ensures forall c :: c in kept <==> c in chains[..n] && IsMerged(c)
  {
    if n == 0 then []
    else if IsMerged(chains[n - 1]) then Merged(chains, n - 1) + [chains[n - 1]]
    else Merged(chains, n - 1)
  }

  lemma {:induction false} InFlat(chains: seq<Chain>, r: Record) returns (c: nat, k: nat)
    requires r in Flat(chains)
    ensures c < |chains| && k < |chains[c]| && chains[c][k] == r
  {
    var last := |chains| - 1;
    if r in chains[last] {
      c := last;
      k :| 0 <= k < |chains[last]| && chains[last][k] == r;
    } else {
      c, k := InFlat(chains[..last], r);
    }
  }

  lemma {:induction false} RelevantIsExact(rs: seq<Record>, n: nat)
    requires n <= |rs| && InReadingOrder(rs)
    ensures forall r :: r in Relevant(rs, n) <==> r in rs[..n] && (IsOwner(r) || IsDeleted(r))
    ensures InReadingOrder(Relevant(rs, n))
  {
    if n > 0 {
      RelevantIsExact(rs, n - 1);
      assert rs[..n] == rs[..n - 1] + [rs[n - 1]];
      var before := Relevant(rs, n - 1);
      forall i | 0 <= i < |before| ensures Precedes(before[i], rs[n - 1]) {
        assert before[i] in before;
      }
    }
  }

  // Every deleted paragraph is a later member of some merged chain.
  lemma {:induction false} DeletedAreInMergedChains(rs: seq<Record>, r: Record) returns (c: nat, k: nat)
    requires InReadingOrder(rs) && Chains(rs, |rs|).Ok? && r in rs && IsDeleted(r)
    ensures var kept := Merged(Chains(rs, |rs|).value, |Chains(rs, |rs|).value|);
      c < |kept| && 0 < k < |kept[c]| && kept[c][k] == r
  {
    var chains := Chains(rs, |rs|).value;
    var kept := Merged(chains, |chains|);
    ChainsPartitionRecords(rs, |rs|);
    RelevantIsExact(rs, |rs|);
    assert rs[..|rs|] == rs && chains[..|chains|] == chains;
    var d, j := InFlat(chains, r);
    assert chains[d] in chains && WellFormed(chains[d]);
    assert chains[d] in kept;
    c :| 0 <= c < |kept| && kept[c] == chains[d];
    k := j;
  }

  // Positions in the concatenation are positions in chains.
  function Offset(chains: seq<Chain>, c: nat): nat
    requires c <= |chains|
  {
    if c == 0 then 0 else Offset(chains, c - 1) + |chains[c - 1]|
  }

  lemma {:induction false} FlatAt(chains: seq<Chain>, n: nat, c: nat, k: nat)
    requires c < n <= |chains| && k < |chains[c]|
    ensures Offset(chains, n) == |Flat(chains[..n])| && Offset(chains, c) + k < Offset(chains, n)
    ensures Flat(chains[..n])[Offset(chains, c) + k] == chains[c][k]
    decreases n
  {
    assert chains[..n][..n - 1] == chains[..n - 1];
    if c < n - 1 {
      FlatAt(chains, n - 1, c, k);
    } else {
      FlatLength(chains, n - 1);
    }
  }

  lemma {:induction false} FlatLength(chains: seq<Chain>, n: nat)
    requires n <= |chains|
    ensures Offset(chains, n) == |Flat(chains[..n])|
  {
    if n > 0 {
      assert chains[..n][..n - 1] == chains[..n - 1];
      FlatLength(chains, n - 1);
    }
  }

  lemma {:induction false} OffsetsGrow(chains: seq<Chain>, c: nat, d: nat)
    requires c < d <= |chains|
    ensures Offset(chains, c) + |chains[c]| <= Offset(chains, d)
    decreases d
  {
    if c < d - 1 {
      OffsetsGrow(chains, c, d - 1);
    }
  }

  // No record stands in two chains, or twice in one.
  lemma {:induction false} ChainMembershipIsUnique(rs: seq<Record>, c: nat, k: nat, d: nat, l: nat)
    requires InReadingOrder(rs) && Chains(rs, |rs|).Ok?
    requires var chains := Chains(rs, |rs|).value;
      c < |chains| && k < |chains[c]| && d < |chains| && l < |chains[d]| && chains[c][k] == chains[d][l]
    ensures c == d && k == l
  {
    var chains := Chains(rs, |rs|).value;
    ChainsPartitionRecords(rs, |rs|);
    RelevantIsExact(rs, |rs|);
    var n := |chains|;
    FlatAt(chains, n, c, k);
    FlatAt(chains, n, d, l);
    assert chains[..n] == chains;
    assert Offset(chains, c) + k == Offset(chains, d) + l;
    if c < d {
      OffsetsGrow(chains, c, d);
    } else if d < c {
      OffsetsGrow(chains, d, c);
    }
  }

  // ----- Line evidence ---------------------------------------------------------------

  predicate ValidLines(lines: seq<Line>) {
    lines != [] && forall i :: 0 <= i < |lines| ==> lines[i].key.Some?
  }

  predicate HasOriginal(r: Record) {
    r.block.original.Some? && ValidLines(r.block.original.value)
  }

  // The record's own lines, none when they are unavailable.
  function OriginalLines(r: Record): seq<Line> {
    if HasOriginal(r) then r.block.original.value else []
  }

  // The number of original lines of the first k records.
  function LineOffset(chain: Chain, k: nat): nat
    requires k <= |chain|
  {
    if k == 0 then 0 else LineOffset(chain, k - 1) + |OriginalLines(chain[k - 1])|
  }

  // The same line, with every span marked cross-page or none.
  predicate SameLine(merged: Line, original: Line, crossed: bool) {
    merged.key == original.key && forall f :: f in merged.cross ==> f == crossed
  }

  // The merged lines from offset on start with the record's own lines, each span
  // marked cross-page exactly when the record's page is not the owner's.
  predicate Contributes(lines: seq<Line>, offset: nat, r: Record, owner: Record) {
    && HasOriginal(r)
    && offset + |OriginalLines(r)| <= |lines|
    && forall j :: 0 <= j < |OriginalLines(r)| ==>
         SameLine(lines[offset + j], OriginalLines(r)[j], r.page != owner.page)
  }

  predicate ContributesAt(chain: Chain, k: nat)
    requires k < |chain|
  {
    Contributes(chain[0].block.lines, LineOffset(chain, k), chain[k], chain[0])
  }

  // The owner's lines are exactly the records' original lines, in chain order.
  predicate Explained(chain: Chain) {
    && chain != [] && ValidLines(chain[0].block.lines)
    && (forall k :: 0 <= k < |chain| ==> ContributesAt(chain, k))
    && LineOffset(chain, |chain|) == |chain[0].block.lines|
  }

  method CheckChain(chain: Chain) returns (ok: bool)
    requires chain != []
    ensures ok <==> Explained(chain)
  {
    hide Contributes, ValidLines;
    var lines := chain[0].block.lines;
    if !ValidLines(lines) {
      return false;
    }
    var offset := 0;
    for k := 0 to |chain|
      invariant offset == LineOffset(chain, k)
      invariant forall i :: 0 <= i < k ==> ContributesAt(chain, i)
    {
      assert ContributesAt(chain, k) == Contributes(lines, offset, chain[k], chain[0]);
      if !Contributes(lines, offset, chain[k], chain[0]) {
        return false;
      }
      offset := offset + |OriginalLines(chain[k])|;
    }
    ok := offset == |lines|;
  }

  // Every merged line has one owner: the record whose span of offsets covers it.
  lemma {:induction false} EveryLineHasOwner(chain: Chain, n: nat, p: nat) returns (k: nat)
    requires n <= |chain| && p < LineOffset(chain, n)
    ensures k < n && LineOffset(chain, k) <= p < LineOffset(chain, k + 1)
    decreases n
  {
    if p >= LineOffset(chain, n - 1) {
      k := n - 1;
    } else {
      k := EveryLineHasOwner(chain, n - 1, p);
    }
  }

  function Keys(lines: seq<Line>): (ks: seq<Option<int>>)
    ensures |ks| == |lines| && forall i :: 0 <= i < |lines| ==> ks[i] == lines[i].key
  {
    seq(|lines|, i requires 0 <= i < |lines| => lines[i].key)
  }

  function OriginalKeys(chain: Chain, n: nat): seq<Option<int>>
    requires n <= |chain|
  {
    if n == 0 then [] else OriginalKeys(chain, n - 1) + Keys(OriginalLines(chain[n - 1]))
  }

  // The merged keys are the concatenation of the records' original keys.
  lemma {:induction false} ExplainedKeysConcatenate(chain: Chain, n: nat)
    requires Explained(chain) && n <= |chain|
    ensures LineOffset(chain, n) <= |chain[0].block.lines|
    ensures Keys(chain[0].block.lines[..LineOffset(chain, n)]) == OriginalKeys(chain, n)
  {
    if n > 0 {
      ExplainedKeysConcatenate(chain, n - 1);
      var lines, r := chain[0].block.lines, chain[n - 1];
      assert ContributesAt(chain, n - 1);
      ContributedKeys(lines, LineOffset(chain, n - 1), r, chain[0]);
    }
  }

  lemma {:induction false} ContributedKeys(lines: seq<Line>, offset: nat, r: Record, owner: Record)
    requires Contributes(lines, offset, r, owner)
    ensures var end := offset + |OriginalLines(r)|; Keys(lines[..end]) == Keys(lines[..offset]) + Keys(OriginalLines(r))
  {
    var end := offset + |OriginalLines(r)|;
    forall i | offset <= i < end ensures lines[i].key == OriginalLines(r)[i - offset].key {
      assert SameLine(lines[offset + (i - offset)], OriginalLines(r)[i - offset], r.page != owner.page);
    }
  }

  // ----- Writing the texts ------------------------------------------------------------

  // The content-list items at a record's page and box.
  function Places(items: seq<Item>, r: Record, n: nat): (places: seq<nat>)
    requires n <= |items|
    ensures forall i :: i in places <==> 0 <= i < n && IsPlace(items[i], r)
  {
    if n == 0 then []
    else if IsPlace(items[n - 1], r) then Places(items, r, n - 1) + [n - 1]
    else Places(items, r, n - 1)
  }

  predicate IsPlace(item: Item, r: Record) {
    item.kind == "text" && item.page == Some(r.page) && r.scaled.Some? && item.box == GoodBox(r.scaled.value)
  }

  // Each record has exactly one item.
  predicate Placed(items: seq<Item>, chain: Chain) {
    forall k :: 0 <= k < |chain| ==> |Places(items, chain[k], |items|)| == 1
  }

  function PlaceOf(items: seq<Item>, r: Record): (i: nat)
    requires |Places(items, r, |items|)| == 1
    ensures i < |items| && IsPlace(items[i], r)
  {
    assert Places(items, r, |items|)[0] in Places(items, r, |items|);
    Places(items, r, |items|)[0]
  }

  type Renderer = (seq<Line>, bool) -> string

  function Texts(chain: Chain, render: Renderer, cjk: bool): (ts: seq<string>)
    ensures |ts| == |chain| && forall k :: 0 <= k < |chain| ==> ts[k] == render(OriginalLines(chain[k]), cjk)
  {
    seq(|chain|, k requires 0 <= k < |chain| => render(OriginalLines(chain[k]), cjk))
  }

  // The incoming texts are already page-local, or all stand in the owner's item.
  predicate Agrees(items: seq<Item>, chain: Chain, render: Renderer, cjk: bool)
    requires chain != [] && Placed(items, chain)
  {
    || (forall k :: 0 <= k < |chain| ==> items[PlaceOf(items, chain[k])].text == Texts(chain, render, cjk)[k])
    || (items[PlaceOf(items, chain[0])].text == render(chain[0].block.lines, cjk)
        && forall k :: 0 < k < |chain| ==> items[PlaceOf(items, chain[k])].text == "")
  }

  // The one list of texts that some joining rule supports.
  function Choice(items: seq<Item>, chain: Chain, render: Renderer): Option<seq<string>>
    requires chain != [] && Placed(items, chain)
  {
    var western, cjk := Texts(chain, render, false), Texts(chain, render, true);
    if Agrees(items, chain, render, false) then
      if Agrees(items, chain, render, true) && cjk != western then None else Some(western)
    else if Agrees(items, chain, render, true) then Some(cjk) else None
  }

  predicate Restorable(items: seq<Item>, chain: Chain, render: Renderer) {
    chain != [] && Explained(chain) && Placed(items, chain) && Choice(items, chain, render).Some?
  }

  // The writes of the first n chains, in order: item index and text.
  function Writes(items: seq<Item>, chains: seq<Chain>, render: Renderer, n: nat): seq<(nat, string)>
    requires n <= |chains| && forall c :: 0 <= c < n ==> Restorable(items, chains[c], render)
  {
    if n == 0 then [] else Writes(items, chains, render, n - 1) + ChainWrites(items, chains[n - 1], render)
  }

  function ChainWrites(items: seq<Item>, chain: Chain, render: Renderer): (ws: seq<(nat, string)>)
    requires Restorable(items, chain, render)
    ensures |ws| == |chain|
  {
    seq(|chain|, k requires 0 <= k < |chain| => (PlaceOf(items, chain[k]), Choice(items, chain, render).value[k]))
  }

  function Written(items: seq<Item>, writes: seq<(nat, string)>, n: nat): (out: seq<Item>)
    requires n <= |writes| && forall w :: 0 <= w < |writes| ==> writes[w].0 < |items|
    ensures |out| == |items|
  {
    if n == 0 then items
    else
      var before, (at, text) := Written(items, writes, n - 1), writes[n - 1];
      before[at := before[at].(text := text)]
  }

  // Only written items change, only in their text, and to a text written there.
  lemma {:induction false} WrittenAt(items: seq<Item>, writes: seq<(nat, string)>, n: nat, i: nat)
    requires n <= |writes| && (forall w :: 0 <= w < |writes| ==> writes[w].0 < |items|) && i < |items|
    ensures var out := Written(items, writes, n);
      out[i] == items[i] || exists w :: 0 <= w < n && writes[w].0 == i && out[i] == items[i].(text := writes[w].1)
    ensures (forall w :: 0 <= w < n ==> writes[w].0 != i) ==> Written(items, writes, n)[i] == items[i]
  {
    if n > 0 {
      WrittenAt(items, writes, n - 1, i);
    }
  }

  // ----- The whole restoration ----------------------------------------------------------

  predicate AnyMarked(pages: seq<Page>) {
    exists p, b :: p in pages && b in p.blocks && Marked(b.0)
  }

  predicate BoxesAreValid(items: seq<Item>) {
    forall i :: i in items && i.kind == "text" && i.page.Some? ==> i.box != BadBox
  }

  predicate AllRestorable(items: seq<Item>, chains: seq<Chain>, render: Renderer) {
    forall c :: 0 <= c < |chains| ==> Restorable(items, chains[c], render)
  }

  // The merged chains of a page inventory.
  function MergedChains(pages: seq<Page>): Result<seq<Chain>, Unavailable> {
    var collected := Collected(pages, |pages|);
    if collected.Err? then Err(Unavailable)
    else
      var rs := SortRecords(collected.value);
      var chains := Chains(rs, |rs|);
      if chains.Err? then Err(Unavailable) else Ok(Merged(chains.value, |chains.value|))
  }

  function Restored(items: seq<Item>, pages: seq<Page>, render: Renderer): Result<seq<Item>, Unavailable> {
    if !AnyMarked(pages) then Ok(items)
    else
      var chains := MergedChains(pages);
      if chains.Err? || !BoxesAreValid(items) || !AllRestorable(items, chains.value, render) then Err(Unavailable)
      else
        var writes := Writes(items, chains.value, render, |chains.value|);
        WritesAreInRange(items, chains.value, render, |chains.value|);
        Ok(Written(items, writes, |writes|))
  }

  lemma {:induction false} WritesAreInRange(items: seq<Item>, chains: seq<Chain>, render: Renderer, n: nat)
    requires n <= |chains| && forall c :: 0 <= c < n ==> Restorable(items, chains[c], render)
    ensures forall w :: 0 <= w < |Writes(items, chains, render, n)| ==> Writes(items, chains, render, n)[w].0 < |items|
  {
    hide Restorable;
    if n > 0 {
      WritesAreInRange(items, chains, render, n - 1);
    }
  }

  method RestoreItems(items: seq<Item>, pages: seq<Page>, render: Renderer) returns (r: Result<seq<Item>, Unavailable>)
    ensures r == Restored(items, pages, render)
  {
    hide Restorable, MergedChains, Explained;
    if !AnyMarked(pages) {
      return Ok(items);
    }
    var found := FindChains(pages);
    if found.Err? {
      return Err(Unavailable);
    }
    var explained := CheckChains(pages, found.value);
    RestorableChainsAreExplained(items, found.value, render);
    if !explained || !BoxesAreValid(items) {
      return Err(Unavailable);
    }
    r := WriteChains(items, found.value, render);
  }

  method CheckChains(pages: seq<Page>, chains: seq<Chain>) returns (ok: bool)
    requires MergedChains(pages) == Ok(chains)
    ensures ok <==> forall c :: 0 <= c < |chains| ==> Explained(chains[c])
  {
    hide MergedChains, Explained;
    for c := 0 to |chains|
      invariant forall d :: 0 <= d < c ==> Explained(chains[d])
    {
      MergedAreNonEmpty(pages, c);
      var explained := CheckChain(chains[c]);
      if !explained {
        return false;
      }
    }
    return true;
  }

  lemma {:induction false} RestorableChainsAreExplained(items: seq<Item>, chains: seq<Chain>, render: Renderer)
    ensures AllRestorable(items, chains, render) ==> forall c :: 0 <= c < |chains| ==> Explained(chains[c])
  {
    forall c | 0 <= c < |chains| && AllRestorable(items, chains, render) ensures Explained(chains[c]) {
      assert Restorable(items, chains[c], render);
    }
  }

  method WriteChains(items: seq<Item>, chains: seq<Chain>, render: Renderer) returns (r: Result<seq<Item>, Unavailable>)
    ensures if AllRestorable(items, chains, render) then r.Ok? else r == Err(Unavailable)
    ensures r.Ok? ==> var ws := Writes(items, chains, render, |chains|);
      (forall w :: 0 <= w < |ws| ==> ws[w].0 < |items|) && r.value == Written(items, ws, |ws|)
  {
    hide Restorable, ChainWrites, Written;
    assert items == Written(items, [], 0) by { WrittenNothing(items); }
    var result := items;
    for c := 0 to |chains|
      invariant forall d :: 0 <= d < c ==> Restorable(items, chains[d], render)
      invariant var ws := Writes(items, chains, render, c);
        (forall w :: 0 <= w < |ws| ==> ws[w].0 < |items|) && result == Written(items, ws, |ws|)
    {
      if !Restorable(items, chains[c], render) {
        return Err(Unavailable);
      }
      result := WriteChain(items, chains[c], render, Writes(items, chains, render, c), result);
    }
    return Ok(result);
  }

  lemma {:induction false} WrittenNothing(items: seq<Item>)
    ensures Written(items, [], 0) == items
  {
  }

  // Writes one chain's texts after the writes already made.
  method WriteChain(items: seq<Item>, chain: Chain, render: Renderer, ghost done: seq<(nat, string)>, result: seq<Item>)
    returns (out: seq<Item>)
    requires Restorable(items, chain, render)
    requires forall w :: 0 <= w < |done| ==> done[w].0 < |items|
    requires result == Written(items, done, |done|)
    ensures var ws := done + ChainWrites(items, chain, render);
      (forall w :: 0 <= w < |ws| ==> ws[w].0 < |items|) && out == Written(items, ws, |ws|)
  {
    hide Restorable, Choice, Places;
    out := result;
    var writes := ChainWrites(items, chain, render);
    ghost var ws := done + writes;
    assert forall w :: |done| <= w < |ws| ==> ws[w] == writes[w - |done|];
    WrittenPrefix(items, done, writes, |done|);
    for k := 0 to |chain|
      invariant out == Written(items, ws, |done| + k)
    {
      var (at, text) := writes[k];
      assert ws[|done| + k] == (at, text);
      out := out[at := out[at].(text := text)];
    }
  }

  lemma {:induction false} WrittenPrefix(items: seq<Item>, a: seq<(nat, string)>, b: seq<(nat, string)>, n: nat)
    requires n <= |a| && (forall w :: 0 <= w < |a + b| ==> (a + b)[w].0 < |items|)
    requires forall w :: 0 <= w < |a| ==> a[w].0 < |items|
    ensures Written(items, a + b, n) == Written(items, a, n)
  {
    if n > 0 {
      WrittenPrefix(items, a, b, n - 1);
    }
  }

  method FindChains(pages: seq<Page>) returns (r: Result<seq<Chain>, Unavailable>)
    ensures r == MergedChains(pages)
  {
    var collected := Collected(pages, |pages|);
    if collected.Err? {
      return Err(Unavailable);
    }
    var rs := SortRecords(collected.value);
    var chains: seq<Chain> := [];
    for n := 0 to |rs|
      invariant Chains(rs, n) == Ok(chains)
    {
      var rec := rs[n];
      if !IsProse(rec) {
        continue;
      }
      if rec.block.deleted {
        if !Accepts(chains, rec) {
          ChainErrorStays(rs, n + 1, |rs|);
          return Err(Unavailable);
        }
        chains := Joined(chains, rec);
      } else if rec.block.lines != [] {
        chains := chains + [[rec]];
      }
    }
    return Ok(Merged(chains, |chains|));
  }

  lemma {:induction false} ChainErrorStays(rs: seq<Record>, n: nat, m: nat)
    requires n <= m <= |rs| && Chains(rs, n).Err?
    ensures Chains(rs, m).Err?
    decreases m
  {
    if n < m {
      ChainErrorStays(rs, n, m - 1);
    }
  }

  lemma {:induction false} MergedAreNonEmpty(pages: seq<Page>, c: nat)
    requires MergedChains(pages).Ok? && c < |MergedChains(pages).value|
    ensures MergedChains(pages).value[c] != []
  {
    assert MergedChains(pages).value[c] in MergedChains(pages).value;
  }

  // ----- What a restoration guarantees -----------------------------------------------

  // The kept chains stand in their old order, at these indices.
  lemma {:induction false} MergedAt(chains: seq<Chain>, n: nat) returns (at: seq<nat>)
    requires n <= |chains|
    ensures |at| == |Merged(chains, n)|
    ensures forall i :: 0 <= i < |at| ==> at[i] < n && Merged(chains, n)[i] == chains[at[i]]
    ensures forall i, j :: 0 <= i < j < |at| ==> at[i] < at[j]
  {
    at := [];
    if n > 0 {
      at := MergedAt(chains, n - 1);
      var before := Merged(chains, n - 1);
      if IsMerged(chains[n - 1]) {
        at := at + [n - 1];
        assert Merged(chains, n) == before + [chains[n - 1]];
      } else {
        assert Merged(chains, n) == before;
      }
      hide Merged, IsMerged;
    }
  }

  ghost predicate StandsAt(chains: seq<Chain>, c: nat, k: nat, r: Record) {
    c < |chains| && k < |chains[c]| && chains[c][k] == r
  }

  // No record stands at two places of the merged chains.
  lemma {:induction false} MergedPlaceIsUnique(pages: seq<Page>, r: Record, c: nat, k: nat, d: nat, l: nat)
    requires MergedChains(pages).Ok?
    requires var kept := MergedChains(pages).value; StandsAt(kept, c, k, r) && StandsAt(kept, d, l, r)
    ensures c == d && k == l
  {
    var rs := SortRecords(Collected(pages, |pages|).value);
    CollectedArePlacedApart(pages, |pages|);
    SortedInReadingOrder(Collected(pages, |pages|).value);
    var chains := Chains(rs, |rs|).value;
    var at := MergedAt(chains, |chains|);
    hide Collected, SortRecords, Chains, Merged, InReadingOrder;
    ChainMembershipIsUnique(rs, at[c], k, at[d], l);
  }

  // Every deleted paragraph stands in the merged chains, at exactly one place, behind its
  // chain's owner; and each merged chain is an owner followed by deleted paragraphs of
  // its kind.
  lemma {:induction false} EveryDeletedParagraphHasOneChain(pages: seq<Page>, r: Record)
    requires MergedChains(pages).Ok? && r in Collected(pages, |pages|).value && IsDeleted(r)
    ensures var kept := MergedChains(pages).value;
      && (forall c :: c in kept ==> WellFormed(c))
      && (exists c: nat, k: nat :: k > 0 && StandsAt(kept, c, k, r))
      && (forall c: nat, k: nat, d: nat, l: nat :: StandsAt(kept, c, k, r) && StandsAt(kept, d, l, r) ==> c == d && k == l)
  {
    var rs := SortRecords(Collected(pages, |pages|).value);
    CollectedArePlacedApart(pages, |pages|);
    SortedInReadingOrder(Collected(pages, |pages|).value);
    ChainsPartitionRecords(rs, |rs|);
    var chains, kept := Chains(rs, |rs|).value, MergedChains(pages).value;
    assert chains[..|chains|] == chains;
    var c, k := DeletedAreInMergedChains(rs, r);
    hide Collected, SortRecords, Chains, Merged, InReadingOrder, WellFormed;
    assert StandsAt(kept, c, k, r);
    forall a: nat, x: nat, b: nat, y: nat | StandsAt(kept, a, x, r) && StandsAt(kept, b, y, r) ensures a == b && x == y {
      MergedPlaceIsUnique(pages, r, a, x, b, y);
    }
  }

  // On success the merged lines are exactly the records' own lines, and the output
  // is the input with new text only where a chain record's item stands.
  lemma {:induction false} RestorationIsExact(items: seq<Item>, pages: seq<Page>, render: Renderer)
    requires Restored(items, pages, render).Ok? && AnyMarked(pages)
    ensures var kept, out := MergedChains(pages).value, Restored(items, pages, render).value;
      && |out| == |items|
      && (forall c :: 0 <= c < |kept| ==> Explained(kept[c]) && Keys(kept[c][0].block.lines) == OriginalKeys(kept[c], |kept[c]|))
      && (forall i :: 0 <= i < |items| ==> out[i] == items[i] || (items[i].kind == "text" && IsRestored(items, kept, render, i, out[i])))
  {
    var kept := MergedChains(pages).value;
    var writes := Writes(items, kept, render, |kept|);
    WritesAreInRange(items, kept, render, |kept|);
    forall c | 0 <= c < |kept| ensures Explained(kept[c]) && Keys(kept[c][0].block.lines) == OriginalKeys(kept[c], |kept[c]|) {
      assert Restorable(items, kept[c], render);
      ExplainedKeysConcatenate(kept[c], |kept[c]|);
      var lines := kept[c][0].block.lines;
      assert lines[..|lines|] == lines;
    }
    var out := Written(items, writes, |writes|);
    forall i | 0 <= i < |items|
      ensures out[i] == items[i] || (items[i].kind == "text" && IsRestored(items, kept, render, i, out[i]))
    {
      WrittenAt(items, writes, |writes|, i);
      if out[i] != items[i] {
        var w :| 0 <= w < |writes| && writes[w].0 == i && out[i] == items[i].(text := writes[w].1);
        var c, k := RecordOf(items, kept, render, |kept|, w);
        ChainWriteHasSource(items, kept, render, c, k);
      }
    }
  }

  // The item got the rendering of the original lines of a record that stands there.
  ghost predicate IsRestored(items: seq<Item>, chains: seq<Chain>, render: Renderer, i: nat, item: Item)
    requires i < |items|
  {
    exists c, k, cjk ::
      && 0 <= c < |chains| && 0 <= k < |chains[c]| && IsPlace(items[i], chains[c][k])
      && item == items[i].(text := render(OriginalLines(chains[c][k]), cjk))
  }

  lemma {:induction false} ChainWriteHasSource(items: seq<Item>, chains: seq<Chain>, render: Renderer, c: nat, k: nat)
    requires c < |chains| && Restorable(items, chains[c], render) && k < |chains[c]|
    ensures var (at, text) := ChainWrites(items, chains[c], render)[k];
      at < |items| && IsRestored(items, chains, render, at, items[at].(text := text))
  {
    var chain := chains[c];
    var (at, text) := ChainWrites(items, chain, render)[k];
    assert |Places(items, chain[k], |items|)| == 1;
    var choice := Choice(items, chain, render).value;
    var cjk := choice != Texts(chain, render, false);
    assert choice == Texts(chain, render, cjk);
    assert items[at].(text := text) == items[at].(text := render(OriginalLines(chains[c][k]), cjk));
  }

  // ----- Is every record's text still there? --------------------------------------------

  // Record k of chain c is written to this item with this text.
  predicate Fills(items: seq<Item>, chains: seq<Chain>, render: Renderer, c: nat, k: nat, at: nat, text: string)
    requires AllRestorable(items, chains, render)
  {
    c < |chains| && k < |chains[c]| && ChainWrites(items, chains[c], render)[k] == (at, text)
  }

  // Every chain record finds its own text at its item.
  ghost predicate AllFilled(items: seq<Item>, chains: seq<Chain>, render: Renderer, out: seq<Item>)
    requires AllRestorable(items, chains, render)
  {
    forall c: nat, k: nat, at: nat, text :: Fills(items, chains, render, c, k, at, text) ==> at < |out| && out[at].text == text
  }

  // No two chain records with different texts stand at one item.
  ghost predicate Uncontested(items: seq<Item>, chains: seq<Chain>, render: Renderer)
    requires AllRestorable(items, chains, render)
  {
    forall c: nat, k: nat, d: nat, l: nat, at: nat, x, y ::
      Fills(items, chains, render, c, k, at, x) && Fills(items, chains, render, d, l, at, y) ==> x == y
  }

  // Every chain record keeps its text exactly when no other one contests its item.
  // Nothing in the restoration itself rules a contest out.
  lemma {:induction false} TextsSurviveIffUncontested(items: seq<Item>, pages: seq<Page>, render: Renderer)
    requires Restored(items, pages, render).Ok? && AnyMarked(pages)
    ensures var kept := MergedChains(pages).value;
      AllFilled(items, kept, render, Restored(items, pages, render).value) <==> Uncontested(items, kept, render)
  {
    var kept := MergedChains(pages).value;
    var writes, out := Writes(items, kept, render, |kept|), Restored(items, pages, render).value;
    WritesAreInRange(items, kept, render, |kept|);
    assert out == Written(items, writes, |writes|);
    hide MergedChains, Restored, Restorable, Writes, ChainWrites, Written;
    if Uncontested(items, kept, render) {
      forall c: nat, k: nat, at: nat, text | Fills(items, kept, render, c, k, at, text)
        ensures at < |out| && out[at].text == text
      {
        var w := WriteOf(items, kept, render, |kept|, c, k);
        forall v | 0 <= v < |writes| && writes[v].0 == at ensures writes[v].1 == text {
          var d, l := RecordOf(items, kept, render, |kept|, v);
          assert Fills(items, kept, render, d, l, at, writes[v].1);
        }
        AgreedTextStays(items, writes, |writes|, w);
      }
    }
  }

  // Write w of the first n chains is that of record k of chain c.
  predicate IsWriteOf(items: seq<Item>, chains: seq<Chain>, render: Renderer, n: nat, w: nat, c: nat, k: nat)
    requires n <= |chains| && AllRestorable(items, chains, render)
  {
    && c < n && k < |chains[c]| && w < |Writes(items, chains, render, n)|
    && Writes(items, chains, render, n)[w] == ChainWrites(items, chains[c], render)[k]
  }

  lemma {:induction false} EarlierWrite(items: seq<Item>, chains: seq<Chain>, render: Renderer, n: nat, w: nat, c: nat, k: nat)
    requires 0 < n <= |chains| && AllRestorable(items, chains, render) && IsWriteOf(items, chains, render, n - 1, w, c, k)
    ensures IsWriteOf(items, chains, render, n, w, c, k)
  {
    hide Restorable, ChainWrites;
  }

  lemma {:induction false} LastWrite(items: seq<Item>, chains: seq<Chain>, render: Renderer, n: nat, k: nat)
    requires 0 < n <= |chains| && AllRestorable(items, chains, render) && k < |chains[n - 1]|
    ensures IsWriteOf(items, chains, render, n, |Writes(items, chains, render, n - 1)| + k, n - 1, k)
    ensures |Writes(items, chains, render, n)| == |Writes(items, chains, render, n - 1)| + |chains[n - 1]|
  {
    hide Restorable, ChainWrites;
  }

  lemma {:induction false} WriteOf(items: seq<Item>, chains: seq<Chain>, render: Renderer, n: nat, c: nat, k: nat)
    returns (w: nat)
    requires n <= |chains| && AllRestorable(items, chains, render) && c < n && k < |chains[c]|
    ensures IsWriteOf(items, chains, render, n, w, c, k)
    decreases n
  {
    hide IsWriteOf, Writes, ChainWrites, Restorable;
    if c < n - 1 {
      w := WriteOf(items, chains, render, n - 1, c, k);
      EarlierWrite(items, chains, render, n, w, c, k);
    } else {
      w := |Writes(items, chains, render, n - 1)| + k;
      LastWrite(items, chains, render, n, k);
    }
  }

  lemma {:induction false} RecordOf(items: seq<Item>, chains: seq<Chain>, render: Renderer, n: nat, w: nat)
    returns (c: nat, k: nat)
    requires n <= |chains| && AllRestorable(items, chains, render) && w < |Writes(items, chains, render, n)|
    ensures IsWriteOf(items, chains, render, n, w, c, k)
    decreases n
  {
    hide IsWriteOf, ChainWrites, Restorable;
    var before := |Writes(items, chains, render, n - 1)|;
    if w < before {
      c, k := RecordOf(items, chains, render, n - 1, w);
      EarlierWrite(items, chains, render, n, w, c, k);
    } else {
      c, k := n - 1, w - before;
      LastWrite(items, chains, render, n, k);
    }
  }

  // Writes that agree on an item's text leave it there.
  lemma {:induction false} AgreedTextStays(items: seq<Item>, writes: seq<(nat, string)>, n: nat, w: nat)
    requires w < n <= |writes| && forall v :: 0 <= v < |writes| ==> writes[v].0 < |items|
    requires forall v :: 0 <= v < |writes| && writes[v].0 == writes[w].0 ==> writes[v].1 == writes[w].1
    ensures Written(items, writes, n)[writes[w].0].text == writes[w].1
    decreases n
  {
    if w < n - 1 {
      AgreedTextStays(items, writes, n - 1, w);
    }
  }

  // A chain's texts are restored exactly when the joining rules that its incoming
  // texts support, at least one, all give these texts.
  lemma {:induction false} ChoiceIsTheOnlySupported(items: seq<Item>, chain: Chain, render: Renderer, texts: seq<string>)
    requires chain != [] && Placed(items, chain)
    ensures Choice(items, chain, render) == Some(texts) <==>
      && (exists cjk :: Agrees(items, chain, render, cjk))
      && (forall cjk :: Agrees(items, chain, render, cjk) ==> Texts(chain, render, cjk) == texts)
  {
    hide Agrees, Texts;
    assert Agrees(items, chain, render, true) || Agrees(items, chain, render, false) <==>
           exists cjk :: Agrees(items, chain, render, cjk);
  }

  // ----- When a restoration succeeds ---------------------------------------------------------

  // Page identities are valid and distinct, and only paragraphs carry markers.
  ghost predicate Collectable(pages: seq<Page>, n: nat)
    requires n <= |pages|
  {
    && (forall p :: 0 <= p < n ==> pages[p].index >= 0 && OnlyProseIsMarked(pages[p]))
    && (forall p, q :: 0 <= p < q < n ==> pages[p].index != pages[q].index)
  }

  ghost predicate OnlyProseIsMarked(page: Page) {
    forall b :: b in page.blocks && Marked(b.0) ==> b.0.kind != OtherKind
  }

  // The block is somewhere in the inventory.
  ghost predicate IsRecord(pages: seq<Page>, r: Record) {
    exists p: nat :: p < |pages| && IsRecordOf(pages[p], r)
  }

  ghost predicate IsRecordOf(page: Page, r: Record) {
    r.page == page.index && r.order < |page.blocks| && (r.block, r.scaled) == page.blocks[r.order]
  }

  lemma {:induction false} CollectedIff(pages: seq<Page>, n: nat)
    requires n <= |pages|
    ensures Collected(pages, n).Ok? <==> Collectable(pages, n)
  {
    if n > 0 {
      CollectedIff(pages, n - 1);
      var page := pages[n - 1];
      assert OnlyProseIsMarked(page) <==> !(exists b :: b in page.blocks && Marked(b.0) && b.0.kind == OtherKind);
      hide OnlyProseIsMarked, Marked;
      var again := exists i :: 0 <= i < n - 1 && pages[i].index == page.index;
      assert Collectable(pages, n) <==> Collectable(pages, n - 1) && page.index >= 0 && OnlyProseIsMarked(page) && !again;
      hide Collectable;
    }
  }

  lemma {:induction false} CollectedAreRecords(pages: seq<Page>, n: nat, r: Record)
    requires n <= |pages| && Collected(pages, n).Ok?
    ensures r in Collected(pages, n).value <==> exists p: nat :: p < n && IsRecordOf(pages[p], r)
  {
    if n > 0 {
      CollectedAreRecords(pages, n - 1, r);
      PageHolds(pages[n - 1], r);
      hide IsRecordOf, PageRecords;
      var last: nat := n - 1;
      assert r in Collected(pages, n).value <==> r in Collected(pages, last).value || r in PageRecords(pages[last], |pages[last].blocks|);
    }
  }

  lemma {:induction false} PageHolds(page: Page, r: Record)
    ensures r in PageRecords(page, |page.blocks|) <==> IsRecordOf(page, r)
  {
    var rs := PageRecords(page, |page.blocks|);
    if IsRecordOf(page, r) {
      assert rs[r.order] == r;
    }
  }

  // Record o is the last owner among the first n.
  predicate IsLastOwner(rs: seq<Record>, n: nat, o: nat)
    requires n <= |rs|
  {
    o < n && IsOwner(rs[o]) && forall x :: o < x < n ==> !IsOwner(rs[x])
  }

  // Deleted paragraph i is empty and follows an owner of its kind.
  ghost predicate FollowsOwner(rs: seq<Record>, i: nat)
    requires i < |rs|
  {
    rs[i].block.lines == [] && exists o: nat :: IsLastOwner(rs, i, o) && rs[o].block.kind == rs[i].block.kind
  }

  // The chain being built is the last owner's.
  lemma {:induction false} LastChainIsLastOwners(rs: seq<Record>, n: nat)
    requires n <= |rs| && Chains(rs, n).Ok?
    ensures var chains := Chains(rs, n).value;
      && (chains == [] ==> forall x :: 0 <= x < n ==> !IsOwner(rs[x]))
      && (chains != [] ==> chains[|chains| - 1] != [] && exists o: nat :: IsLastOwner(rs, n, o) && chains[|chains| - 1][0] == rs[o])
  {
    if n > 0 {
      LastChainIsLastOwners(rs, n - 1);
      var before, last: nat := Chains(rs, n - 1).value, n - 1;
      if before != [] {
        var o: nat :| IsLastOwner(rs, last, o) && before[|before| - 1][0] == rs[o];
        assert !IsOwner(rs[last]) ==> IsLastOwner(rs, n, o);
      }
      assert IsOwner(rs[last]) ==> IsLastOwner(rs, n, last);
    }
  }

  lemma {:induction false} OneLastOwner(rs: seq<Record>, n: nat, o: nat, p: nat)
    requires n <= |rs| && IsLastOwner(rs, n, o) && IsLastOwner(rs, n, p)
    ensures o == p
  {
  }

  lemma {:induction false} ChainsIff(rs: seq<Record>, n: nat)
    requires n <= |rs|
    ensures Chains(rs, n).Ok? <==> forall i :: 0 <= i < n && IsDeleted(rs[i]) ==> FollowsOwner(rs, i)
  {
    if n > 0 {
      ChainsIff(rs, n - 1);
      var last: nat := n - 1;
      if Chains(rs, last).Ok? && IsDeleted(rs[last]) {
        AcceptedIff(rs, last);
      }
      hide Accepts, FollowsOwner, IsDeleted, IsOwner;
    }
  }

  lemma {:induction false} AcceptedIff(rs: seq<Record>, n: nat)
    requires n < |rs| && Chains(rs, n).Ok?
    ensures Accepts(Chains(rs, n).value, rs[n]) <==> FollowsOwner(rs, n)
  {
    LastChainIsLastOwners(rs, n);
    var chains := Chains(rs, n).value;
    hide Chains, IsOwner;
    if chains != [] {
      var o: nat :| IsLastOwner(rs, n, o) && chains[|chains| - 1][0] == rs[o];
      forall p: nat | IsLastOwner(rs, n, p) ensures p == o {
        OneLastOwner(rs, n, o, p);
      }
    }
  }

  // In terms of the inventory: the nearest earlier owner of a record.
  ghost predicate IsNearestOwner(pages: seq<Page>, o: Record, r: Record) {
    && IsRecord(pages, o) && IsOwner(o) && Precedes(o, r)
    && forall x :: IsRecord(pages, x) && IsOwner(x) && Precedes(x, r) ==> x == o || Precedes(x, o)
  }

  // Every deleted paragraph is empty, and its nearest earlier owner is of its kind.
  ghost predicate DeletedFollowOwners(pages: seq<Page>) {
    forall r :: IsRecord(pages, r) && IsDeleted(r) ==>
      r.block.lines == [] && exists o :: IsNearestOwner(pages, o, r) && o.block.kind == r.block.kind
  }

  // The records in reading order.
  ghost predicate InOrderOf(pages: seq<Page>, rs: seq<Record>) {
    InReadingOrder(rs) && forall r :: r in rs <==> IsRecord(pages, r)
  }

  lemma {:induction false} SortedAreInOrder(pages: seq<Page>)
    requires Collected(pages, |pages|).Ok?
    ensures InOrderOf(pages, SortRecords(Collected(pages, |pages|).value))
  {
    var collected := Collected(pages, |pages|).value;
    CollectedArePlacedApart(pages, |pages|);
    SortedInReadingOrder(collected);
    forall r ensures r in collected <==> IsRecord(pages, r) {
      CollectedAreRecords(pages, |pages|, r);
    }
    hide Collected, SortRecords, InReadingOrder;
  }

  lemma {:induction false} LastOwnerIsNearest(pages: seq<Page>, rs: seq<Record>, i: nat, o: nat)
    requires InOrderOf(pages, rs) && i < |rs| && IsLastOwner(rs, i, o)
    ensures IsNearestOwner(pages, rs[o], rs[i])
  {
    assert rs[o] in rs;
    forall x | IsRecord(pages, x) && IsOwner(x) && Precedes(x, rs[i]) ensures x == rs[o] || Precedes(x, rs[o]) {
      assert x in rs;
      var k :| 0 <= k < |rs| && rs[k] == x;
      hide IsRecord, IsOwner;
    }
  }

  lemma {:induction false} NearestIsLastOwner(pages: seq<Page>, rs: seq<Record>, i: nat, o: Record) returns (k: nat)
    requires InOrderOf(pages, rs) && i < |rs| && IsNearestOwner(pages, o, rs[i])
    ensures IsLastOwner(rs, i, k) && rs[k] == o
  {
    assert o in rs;
    k :| 0 <= k < |rs| && rs[k] == o;
    forall x | k < x < i ensures !IsOwner(rs[x]) {
      assert rs[x] in rs;
    }
  }

  lemma {:induction false} FollowsIff(pages: seq<Page>, rs: seq<Record>, i: nat)
    requires InOrderOf(pages, rs) && i < |rs|
    ensures FollowsOwner(rs, i) <==>
      rs[i].block.lines == [] && exists o :: IsNearestOwner(pages, o, rs[i]) && o.block.kind == rs[i].block.kind
  {
    if FollowsOwner(rs, i) {
      var o: nat :| IsLastOwner(rs, i, o) && rs[o].block.kind == rs[i].block.kind;
      LastOwnerIsNearest(pages, rs, i, o);
    }
    if o :| IsNearestOwner(pages, o, rs[i]) && o.block.kind == rs[i].block.kind {
      var k := NearestIsLastOwner(pages, rs, i, o);
    }
  }

  lemma {:induction false} MergedChainsIff(pages: seq<Page>)
    ensures MergedChains(pages).Ok? <==> Collectable(pages, |pages|) && DeletedFollowOwners(pages)
  {
    CollectedIff(pages, |pages|);
    if Collected(pages, |pages|).Ok? {
      SortedAreInOrder(pages);
      var rs := SortRecords(Collected(pages, |pages|).value);
      ChainsIff(rs, |rs|);
      hide Collected, SortRecords, Collectable, Chains, Merged;
      AllFollowIff(pages, rs);
    }
  }

  lemma {:induction false} AllFollowIff(pages: seq<Page>, rs: seq<Record>)
    requires InOrderOf(pages, rs)
    ensures DeletedFollowOwners(pages) <==> forall i :: 0 <= i < |rs| && IsDeleted(rs[i]) ==> FollowsOwner(rs, i)
  {
    forall i | 0 <= i < |rs|
      ensures FollowsOwner(rs, i) <==>
        rs[i].block.lines == [] && exists o :: IsNearestOwner(pages, o, rs[i]) && o.block.kind == rs[i].block.kind
    {
      FollowsIff(pages, rs, i);
    }
    hide FollowsOwner, IsNearestOwner, IsDeleted, InReadingOrder, IsRecord;
    assert forall i :: 0 <= i < |rs| ==> rs[i] in rs;
  }

  // An owner, and behind it in reading order the deleted paragraphs whose nearest owner it
  // is, if there are any or the owner carries a marker.
  ghost predicate IsMergedChain(pages: seq<Page>, chain: Chain) {
    && chain != [] && InReadingOrder(chain) && IsRecord(pages, chain[0]) && IsOwner(chain[0])
    && (forall r :: r in chain[1..] <==> IsFollower(pages, chain[0], r))
    && (|chain| > 1 || Marked(chain[0].block))
  }

  ghost predicate IsFollower(pages: seq<Page>, o: Record, r: Record) {
    IsRecord(pages, r) && IsDeleted(r) && IsNearestOwner(pages, o, r)
  }

  // Chain c's members stand in rs, in order, and every later owner comes after all of them.
  lemma {:induction false} ChainStandsTogether(rs: seq<Record>, c: nat)
    requires InReadingOrder(rs) && Chains(rs, |rs|).Ok? && c < |Chains(rs, |rs|).value|
    ensures var chain := Chains(rs, |rs|).value[c];
      && WellFormed(chain) && InReadingOrder(chain)
      && (forall r :: r in chain ==> r in rs)
      && (forall x, r :: x in rs && IsOwner(x) && Precedes(chain[0], x) && r in chain ==> Precedes(r, x))
  {
    var chains := Chains(rs, |rs|).value;
    var chain, n := chains[c], |chains|;
    ChainsPartitionRecords(rs, |rs|);
    RelevantIsExact(rs, |rs|);
    var flat := Flat(chains);
    assert rs[..|rs|] == rs && chains[..n] == chains && chain in chains;
    hide Chains, Relevant, Flat, Merged, WellFormed;
    forall k | 0 <= k < |chain| ensures Offset(chains, c) + k < |flat| && flat[Offset(chains, c) + k] == chain[k] {
      FlatAt(chains, n, c, k);
    }
    forall r | r in chain ensures r in rs {
      var k :| 0 <= k < |chain| && chain[k] == r;
      assert flat[Offset(chains, c) + k] in flat;
    }
    forall x, r | x in rs && IsOwner(x) && WellFormed(chain) && Precedes(chain[0], x) && r in chain ensures Precedes(r, x) {
      LaterOwnerIsLater(chains, flat, c, x, r);
    }
    assert InReadingOrder(chain);
    assert WellFormed(chain);
  }

  lemma {:induction false} LaterOwnerIsLater(chains: seq<Chain>, flat: seq<Record>, c: nat, x: Record, r: Record)
    requires flat == Flat(chains) && InReadingOrder(flat) && (forall d :: d in chains ==> WellFormed(d))
    requires c < |chains| && chains[c] != [] && x in flat && IsOwner(x) && Precedes(chains[c][0], x) && r in chains[c]
    ensures Precedes(r, x)
  {
    var n := |chains|;
    assert chains[..n] == chains;
    var d, l := InFlat(chains, x);
    assert chains[d] in chains && WellFormed(chains[d]);
    assert l == 0;
    var k: nat :| k < |chains[c]| && chains[c][k] == r;
    FlatAt(chains, n, c, 0);
    FlatAt(chains, n, c, k);
    FlatAt(chains, n, d, 0);
    hide Flat, WellFormed;
    if d < c {
      OffsetsGrow(chains, d, c);
    } else if d > c {
      OffsetsGrow(chains, c, d);
      assert Precedes(flat[Offset(chains, c) + k], flat[Offset(chains, d)]);
    }
  }

  // A deleted member's nearest owner is its chain's.
  lemma {:induction false} ChainOwnerIsNearest(pages: seq<Page>, rs: seq<Record>, c: nat, k: nat)
    requires InOrderOf(pages, rs) && Chains(rs, |rs|).Ok? && c < |Chains(rs, |rs|).value|
    requires 0 < k < |Chains(rs, |rs|).value[c]|
    ensures var chain := Chains(rs, |rs|).value[c]; IsFollower(pages, chain[0], chain[k])
  {
    var chain := Chains(rs, |rs|).value[c];
    ChainStandsTogether(rs, c);
    hide Chains, IsRecord;
    var o, r := chain[0], chain[k];
    assert o in chain && r in chain;
    forall x | IsRecord(pages, x) && IsOwner(x) && Precedes(x, r) ensures x == o || Precedes(x, o) {
      assert x in rs && o in rs;
      EitherPrecedes(rs, x, o);
    }
  }

  lemma {:induction false} EitherPrecedes(rs: seq<Record>, a: Record, b: Record)
    requires InReadingOrder(rs) && a in rs && b in rs
    ensures a == b || Precedes(a, b) || Precedes(b, a)
  {
    var i :| 0 <= i < |rs| && rs[i] == a;
    var j :| 0 <= j < |rs| && rs[j] == b;
  }

  lemma {:induction false} OneNearestOwner(pages: seq<Page>, o: Record, p: Record, r: Record)
    requires IsNearestOwner(pages, o, r) && IsNearestOwner(pages, p, r)
    ensures o == p
  {
  }

  lemma {:induction false} OneOrder(a: seq<Record>, b: seq<Record>)
    requires InReadingOrder(a) && InReadingOrder(b) && forall r :: r in a <==> r in b
    ensures a == b
  {
    assert b != [] ==> b[0] in b;
    if a != [] {
      assert a[0] in b;
      var i :| 0 <= i < |b| && b[i] == a[0];
      var j :| 0 <= j < |a| && a[j] == b[0];
      assert i == 0;
      forall r ensures r in a[1..] <==> r in b[1..] {
        RestOf(a, r);
        RestOf(b, r);
      }
      OneOrder(a[1..], b[1..]);
      assert a == [a[0]] + a[1..] && b == [b[0]] + b[1..];
    }
  }

  lemma {:induction false} RestOf(rs: seq<Record>, r: Record)
    requires rs != [] && InReadingOrder(rs)
    ensures r in rs[1..] <==> r in rs && r != rs[0]
  {
    if r in rs && r != rs[0] {
      var i :| 0 <= i < |rs| && rs[i] == r;
      assert rs[1..][i - 1] == r;
    }
  }

  // Each chain holds just its owner's followers behind it.
  lemma {:induction false} ChainHoldsFollowers(pages: seq<Page>, rs: seq<Record>, c: nat)
    requires InOrderOf(pages, rs) && Chains(rs, |rs|).Ok? && c < |Chains(rs, |rs|).value|
    ensures var chain := Chains(rs, |rs|).value[c];
      && chain != [] && InReadingOrder(chain) && IsRecord(pages, chain[0]) && IsOwner(chain[0])
      && (forall r :: r in chain[1..] <==> IsFollower(pages, chain[0], r))
  {
    var chains := Chains(rs, |rs|).value;
    var chain := chains[c];
    ChainStandsTogether(rs, c);
    assert chain[0] in chain;
    forall r | r in chain[1..] ensures IsFollower(pages, chain[0], r) {
      var k :| 0 <= k < |chain[1..]| && chain[1..][k] == r;
      ChainOwnerIsNearest(pages, rs, c, k + 1);
    }
    forall r | IsFollower(pages, chain[0], r) ensures r in chain[1..] {
      var d, l := DeletedStandsIn(rs, r);
      ChainOwnerIsNearest(pages, rs, d, l);
      OneNearestOwner(pages, chain[0], chains[d][0], r);
      ChainStandsTogether(rs, d);
      ChainMembershipIsUnique(rs, c, 0, d, 0);
      assert chain[1..][l - 1] == r;
    }
    hide Chains;
  }

  lemma {:induction false} DeletedStandsIn(rs: seq<Record>, r: Record) returns (c: nat, k: nat)
    requires InReadingOrder(rs) && Chains(rs, |rs|).Ok? && r in rs && IsDeleted(r)
    ensures var chains := Chains(rs, |rs|).value; c < |chains| && 0 < k < |chains[c]| && chains[c][k] == r
  {
    c, k := RelevantStandsIn(rs, r);
  }

  lemma {:induction false} RelevantStandsIn(rs: seq<Record>, r: Record) returns (c: nat, k: nat)
    requires InReadingOrder(rs) && Chains(rs, |rs|).Ok? && r in rs && (IsDeleted(r) || IsOwner(r))
    ensures var chains := Chains(rs, |rs|).value;
      c < |chains| && k < |chains[c]| && chains[c][k] == r && (k == 0 <==> IsOwner(r))
  {
    var chains := Chains(rs, |rs|).value;
    ChainsPartitionRecords(rs, |rs|);
    RelevantIsExact(rs, |rs|);
    assert rs[..|rs|] == rs;
    hide Chains, Relevant;
    c, k := InFlat(chains, r);
    assert chains[c] in chains && WellFormed(chains[c]);
  }

  // The kept chains are exactly the merged chains of the inventory.
  lemma {:induction false} KeptIffMergedChain(pages: seq<Page>, chain: Chain)
    requires MergedChains(pages).Ok?
    ensures chain in MergedChains(pages).value <==> IsMergedChain(pages, chain)
  {
    var rs := SortRecords(Collected(pages, |pages|).value);
    SortedAreInOrder(pages);
    var chains := Chains(rs, |rs|).value;
    assert chains[..|chains|] == chains;
    assert MergedChains(pages).value == Merged(chains, |chains|);
    assert chain in MergedChains(pages).value <==> chain in chains && IsMerged(chain);
    hide MergedChains, Merged, Collected, SortRecords;
    ChainIffMergedChain(pages, rs, chain);
  }

  lemma {:induction false} ChainIffMergedChain(pages: seq<Page>, rs: seq<Record>, chain: Chain)
    requires InOrderOf(pages, rs) && Chains(rs, |rs|).Ok?
    ensures chain in Chains(rs, |rs|).value && IsMerged(chain) <==> IsMergedChain(pages, chain)
  {
    var chains := Chains(rs, |rs|).value;
    if chain in chains && IsMerged(chain) {
      var c :| 0 <= c < |chains| && chains[c] == chain;
      hide Chains, IsFollower, IsRecord, IsOwner, IsMerged, InReadingOrder;
      ChainHoldsFollowers(pages, rs, c);
    }
    if IsMergedChain(pages, chain) {
      var c := OwnerStandsIn(pages, rs, chain[0]);
      ChainHoldsFollowers(pages, rs, c);
      hide Chains, IsFollower, IsRecord, IsOwner, IsMerged;
      SameChain(chains[c], chain);
    }
  }

  lemma {:induction false} OwnerStandsIn(pages: seq<Page>, rs: seq<Record>, o: Record) returns (c: nat)
    requires InOrderOf(pages, rs) && Chains(rs, |rs|).Ok? && IsRecord(pages, o) && IsOwner(o)
    ensures var chains := Chains(rs, |rs|).value; c < |chains| && chains[c] != [] && chains[c][0] == o
  {
    var k: nat;
    c, k := RelevantStandsIn(rs, o);
  }

  lemma {:induction false} SameChain(a: Chain, b: Chain)
    requires a != [] && b != [] && a[0] == b[0] && InReadingOrder(a) && InReadingOrder(b)
    requires forall r :: r in a[1..] <==> r in b[1..]
    ensures a == b
  {
    OneOrder(a[1..], b[1..]);
    assert a == [a[0]] + a[1..] && b == [b[0]] + b[1..];
  }

  // Some joining rule fits the incoming texts, and all that do give the same texts.
  ghost predicate Supported(items: seq<Item>, chain: Chain, render: Renderer)
    requires chain != [] && Placed(items, chain)
  {
    && (exists cjk :: Agrees(items, chain, render, cjk))
    && forall a, b :: Agrees(items, chain, render, a) && Agrees(items, chain, render, b) ==> Texts(chain, render, a) == Texts(chain, render, b)
  }

  lemma {:induction false} ChoiceIffSupported(items: seq<Item>, chain: Chain, render: Renderer)
    requires chain != [] && Placed(items, chain)
    ensures Choice(items, chain, render).Some? <==> Supported(items, chain, render)
  {
    hide Agrees, Texts;
    var yes := Agrees(items, chain, render, true) || Agrees(items, chain, render, false);
    assert yes <==> exists cjk :: Agrees(items, chain, render, cjk);
  }

  // An inventory without markers gives back the items. Otherwise the restoration succeeds
  // exactly when the pages can be collected, every deleted paragraph is empty behind an
  // owner of its kind, the boxes are valid, and every merged chain is explained line by
  // line, has its places, and fits a joining rule.
  lemma {:induction false} RestorationSucceedsIff(items: seq<Item>, pages: seq<Page>, render: Renderer)
    ensures Unmarked(pages) ==> Restored(items, pages, render) == Ok(items)
    ensures !Unmarked(pages) ==>
      (Restored(items, pages, render).Ok? <==>
        && Collectable(pages, |pages|) && DeletedFollowOwners(pages)
        && (forall i :: i in items && i.kind == "text" && i.page.Some? ==> !i.box.BadBox?)
        && forall chain :: IsMergedChain(pages, chain) ==>
             Explained(chain) && Placed(items, chain) && Supported(items, chain, render))
  {
    MergedChainsIff(pages);
    if MergedChains(pages).Ok? {
      AllRestorableIff(items, pages, render);
    }
    UnmarkedIff(pages);
    hide MergedChains, AllRestorable, Collectable, DeletedFollowOwners, Explained, Placed, Supported, IsMergedChain, AnyMarked, Writes, Written, Unmarked;
  }

  // No paragraph is deleted, no line has a cross-page span, and no marker sits elsewhere.
  ghost predicate Unmarked(pages: seq<Page>) {
    forall p, b :: p in pages && b in p.blocks ==> HasNoMarker(b.0)
  }

  ghost predicate HasNoMarker(b: Block) {
    !b.deleted && !b.nested && forall l :: l in b.lines ==> true !in l.cross
  }

  lemma {:induction false} UnmarkedIff(pages: seq<Page>)
    ensures Unmarked(pages) <==> !AnyMarked(pages)
  {
    assert forall p, b :: p in pages && b in p.blocks ==> (HasNoMarker(b.0) <==> !Marked(b.0));
    hide HasNoMarker, Marked;
  }

  lemma {:induction false} AllRestorableIff(items: seq<Item>, pages: seq<Page>, render: Renderer)
    requires MergedChains(pages).Ok?
    ensures AllRestorable(items, MergedChains(pages).value, render) <==>
      forall chain :: IsMergedChain(pages, chain) ==> Explained(chain) && Placed(items, chain) && Supported(items, chain, render)
  {
    var kept := MergedChains(pages).value;
    forall chain ensures chain in kept <==> IsMergedChain(pages, chain) {
      KeptIffMergedChain(pages, chain);
    }
    forall chain | IsMergedChain(pages, chain)
      ensures Restorable(items, chain, render) <==> Explained(chain) && Placed(items, chain) && Supported(items, chain, render)
    {
      if Placed(items, chain) {
        ChoiceIffSupported(items, chain, render);
      }
    }
    hide MergedChains, IsMergedChain, Explained, Placed, Supported, Restorable;
    if AllRestorable(items, kept, render) {
      forall chain | IsMergedChain(pages, chain) ensures Restorable(items, chain, render) {
        assert chain in kept;
        var c :| 0 <= c < |kept| && kept[c] == chain;
      }
    }
    assert forall c :: 0 <= c < |kept| ==> kept[c] in kept;
  }

  // ----- A contested item ------------------------------------------------------------------

  lemma {:induction false} InsertLast(rs: seq<Record>, r: Record)
    requires forall i :: 0 <= i < |rs| ==> Precedes(rs[i], r)
    ensures Insert(rs, r) == rs + [r]
  {
    if rs != [] {
      InsertLast(rs[1..], r);
    }
  }

  lemma {:induction false} SortedStays(rs: seq<Record>)
    requires InReadingOrder(rs)
    ensures SortRecords(rs) == rs
  {
    if rs != [] {
      var before, last := rs[..|rs| - 1], rs[|rs| - 1];
      assert SortRecords(rs) == Insert(SortRecords(before), last);
      assert forall i :: 0 <= i < |before| ==> before[i] == rs[i] && Precedes(before[i], last);
      hide SortRecords, Insert, Precedes;
      SortedStays(before);
      InsertLast(before, last);
      assert rs == before + [last];
    }
  }

  // A paragraph and the two places it was gathered from.
  ghost predicate Trio(o: Record, d: Record, e: Record) {
    && IsOwner(o) && IsDeleted(d) && IsDeleted(e) && InReadingOrder([o, d, e])
    && d.block.lines == [] && e.block.lines == [] && d.block.kind == e.block.kind == o.block.kind
  }

  lemma {:induction false} TrioIsChain(o: Record, d: Record, e: Record)
    requires Trio(o, d, e)
    ensures var rs := [o, d, e]; Chains(rs, 3) == Ok([rs]) && Merged([rs], 1) == [rs]
  {
    var rs := [o, d, e];
    hide InReadingOrder, IsProse;
    var none: seq<Chain> := [];
    assert none + [[o]] == [[o]];
    assert Chains(rs, 0) == Ok(none);
    assert Chains(rs, 1) == Ok([[o]]);
    JoinedToOnly([o], d);
    JoinedToOnly([o, d], e);
    assert [o] + [d] == [o, d] && [o, d] + [e] == rs;
    assert Chains(rs, 2) == Ok([[o, d]]);
    assert Merged([rs], 0) == [];
  }

  lemma {:induction false} JoinedToOnly(chain: Chain, r: Record)
    ensures Joined([chain], r) == [chain + [r]]
  {
    assert [chain][..0] == [];
  }

  // If the two places share an item and hold different texts, the first one's is lost.
  lemma {:induction false} SharedItemKeepsTheLast(items: seq<Item>, chain: Chain, render: Renderer)
    requires |chain| == 3 && Restorable(items, chain, render) && PlaceOf(items, chain[1]) == PlaceOf(items, chain[2])
    ensures var writes := Writes(items, [chain], render, 1);
      && |writes| == 3 && (forall w :: 0 <= w < 3 ==> writes[w].0 < |items|)
      && Written(items, writes, 3)[PlaceOf(items, chain[2])].text == Choice(items, chain, render).value[2]
  {
    hide Restorable, PlaceOf, Choice;
    assert Writes(items, [chain], render, 1) == [] + ChainWrites(items, chain, render);
    var writes := Writes(items, [chain], render, 1);
    WritesAreInRange(items, [chain], render, 1);
    assert writes[2] == ChainWrites(items, chain, render)[2];
  }

  // A paragraph of lines 1, 2 and 3 on one page; the boxes of its last two lines'
  // places differ by less than a content-list unit.
  function Owner(): Block {
    Block(Text, false, false, [LineOf(1), LineOf(2), LineOf(3)], Some([LineOf(1)]))
  }

  function Emptied(key: int): Block {
    Block(Text, true, false, [], Some([LineOf(key)]))
  }

  function LineOf(key: int): Line {
    Line(Some(key), [false])
  }

  function Tight(): Page {
    Page(0, [(Owner(), Some((5, 5, 9, 9))), (Emptied(2), Some((0, 0, 1, 1))), (Emptied(3), Some((0, 0, 1, 1)))])
  }

  function TightItems(): seq<Item> {
    [Item("text", Some(0), GoodBox((5, 5, 9, 9)), "abc"), Item("text", Some(0), GoodBox((0, 0, 1, 1)), "")]
  }

  function Spelled(lines: seq<Line>, cjk: bool): string {
    if |lines| == 3 then "abc"
    else if lines != [] && lines[0].key == Some(1) then "a"
    else if lines != [] && lines[0].key == Some(2) then "b" else "c"
  }

  // The restoration succeeds, and the second line's text is gone.
  lemma {:induction false} ContestedItemLosesText()
    ensures var r := Restored(TightItems(), [Tight()], Spelled);
      && r.Ok? && |r.value| == 2 && r.value[1].text == "c"
      && (exists c :: c in MergedChains([Tight()]).value && |c| == 3 && Spelled(OriginalLines(c[1]), false) == "b")
  {
    var page, items := Tight(), TightItems();
    var rs := PageRecords(page, 3);
    TightChain();
    TightIsRestorable();
    TightIsMarked();
    assert |items| == 2 && |rs| == 3;
    hide *;
    OneChainRestored(items, page, rs, Spelled);
    assert rs in [rs];
  }

  lemma {:induction false} OneChainRestored(items: seq<Item>, page: Page, chain: Chain, render: Renderer)
    requires AnyMarked([page]) && BoxesAreValid(items) && MergedChains([page]) == Ok([chain])
    requires |chain| == 3 && Restorable(items, chain, render) && PlaceOf(items, chain[1]) == PlaceOf(items, chain[2])
    ensures var r := Restored(items, [page], render);
      r.Ok? && |r.value| == |items| && r.value[PlaceOf(items, chain[2])].text == Choice(items, chain, render).value[2]
  {
    hide AnyMarked, BoxesAreValid, MergedChains, Restorable, PlaceOf, Choice, Writes, Written;
    assert AllRestorable(items, [chain], render);
    SharedItemKeepsTheLast(items, chain, render);
  }

  lemma {:induction false} TightIsMarked()
    ensures AnyMarked([Tight()]) && BoxesAreValid(TightItems())
    ensures Spelled(OriginalLines(PageRecords(Tight(), 3)[1]), false) == "b"
  {
    var page := Tight();
    assert page in [page] && page.blocks[1] in page.blocks && Marked(page.blocks[1].0);
    assert OriginalLines(PageRecords(page, 3)[1]) == [LineOf(2)];
  }

  lemma {:induction false} TightChain()
    ensures var rs := PageRecords(Tight(), 3); MergedChains([Tight()]) == Ok([rs])
  {
    var page := Tight();
    var rs := PageRecords(page, 3);
    TightTrio();
    TightCollected();
    hide *;
    TrioIsChain(rs[0], rs[1], rs[2]);
    SortedStays(rs);
    MergedFrom(page, rs, [rs]);
  }

  lemma {:induction false} TightTrio()
    ensures var rs := PageRecords(Tight(), 3);
      |rs| == 3 && rs == [rs[0], rs[1], rs[2]] && Trio(rs[0], rs[1], rs[2]) && InReadingOrder(rs)
  {
  }

  lemma {:induction false} TightCollected()
    ensures Collected([Tight()], 1) == Ok(PageRecords(Tight(), 3))
  {
    var page := Tight();
    assert Collected([page], 0) == Ok([]);
    assert forall b :: b in page.blocks ==> b.0.kind == Text;
    var rs := PageRecords(page, 3);
    assert [] + rs == rs;
  }

  lemma {:induction false} MergedFrom(page: Page, rs: seq<Record>, chains: seq<Chain>)
    requires Collected([page], 1) == Ok(rs) && SortRecords(rs) == rs
    requires Chains(rs, |rs|) == Ok(chains) && Merged(chains, |chains|) == chains
    ensures MergedChains([page]) == Ok(chains)
  {
    hide Collected, SortRecords, Chains, Merged;
  }

  lemma {:induction false} TightIsRestorable()
    ensures var chain, items := PageRecords(Tight(), 3), TightItems();
      && Restorable(items, chain, Spelled)
      && PlaceOf(items, chain[1]) == 1 && PlaceOf(items, chain[2]) == 1
      && Choice(items, chain, Spelled).value[2] == "c"
  {
    var chain, items := PageRecords(Tight(), 3), TightItems();
    TightIsExplained();
    TightPlaces();
    assert OriginalLines(chain[0]) == [LineOf(1)] && OriginalLines(chain[1]) == [LineOf(2)] && OriginalLines(chain[2]) == [LineOf(3)];
    assert Placed(items, chain);
    assert PlaceOf(items, chain[0]) == 0 && PlaceOf(items, chain[1]) == 1 && PlaceOf(items, chain[2]) == 1;
    assert |chain[0].block.lines| == 3;
    hide Tight, Places, Explained, PageRecords, OriginalLines, PlaceOf;
    assert Texts(chain, Spelled, false) == Texts(chain, Spelled, true);
    assert Agrees(items, chain, Spelled, false);
  }

  lemma {:induction false} TightIsExplained()
    ensures Explained(PageRecords(Tight(), 3))
  {
    var chain := PageRecords(Tight(), 3);
    assert LineOffset(chain, 0) == 0 && LineOffset(chain, 1) == 1 && LineOffset(chain, 2) == 2 && LineOffset(chain, 3) == 3;
    assert ContributesAt(chain, 0) && ContributesAt(chain, 1) && ContributesAt(chain, 2);
  }

  lemma {:induction false} TightPlaces()
    ensures var chain, items := PageRecords(Tight(), 3), TightItems();
      Places(items, chain[0], 2) == [0] && Places(items, chain[1], 2) == [1] && Places(items, chain[2], 2) == [1]
  {
    var chain, items := PageRecords(Tight(), 3), TightItems();
    assert Places(items, chain[0], 1) == [0] && Places(items, chain[1], 1) == [] && Places(items, chain[2], 1) == [];
  }
}
