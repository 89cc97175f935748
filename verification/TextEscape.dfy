// Markdown escaping of MinerU text spans, and its decoder.
module TextEscape {
  // Backslash-escaped by the pipeline: emphasis, code, strike-through and math.
  predicate IsMarker(c: char) {
    c == '*' || c == '_' || c == '`' || c == '~' || c == '$'
  }

  predicate IsBlank(c: char) {
    c == ' ' || c == '\t'
  }

  // ----- Full-width letters and digits ---------------------------------------

  predicate IsFullWidth(c: char) {
    var n := c as int;
    0xFF10 <= n <= 0xFF19 || 0xFF21 <= n <= 0xFF3A || 0xFF41 <= n <= 0xFF5A
  }

  function Narrow(c: char): (r: char)
    ensures !IsFullWidth(r)
    ensures IsFullWidth(c) ==> r as int + 0xFEE0 == c as int
    ensures !IsFullWidth(c) ==> r == c
  {
    if IsFullWidth(c) then (c as int - 0xFEE0) as char else c
  }

  function Normalized(s: string): (r: string)
    ensures |r| == |s| && forall i :: 0 <= i < |s| ==> r[i] == Narrow(s[i])
  {
    seq(|s|, i requires 0 <= i < |s| => Narrow(s[i]))
  }

  // ----- Escaping markers ------------------------------------------------------

  // The number of leading backslashes.
  function Run(s: string): (k: nat)
    ensures k <= |s| && (forall i :: 0 <= i < k ==> s[i] == '\\') && (k < |s| ==> s[k] != '\\')
  {
    if s == [] || s[0] != '\\' then 0 else 1 + Run(s[1..])
  }

  // Left to right: a run of backslashes with the character that ends it. Before a
  // marker an even run gains one backslash; anything else is copied.
  function EscapeMarkers(s: string): string
    decreases |s|
  {
    var k := Run(s);
    if k == |s| then s
    else (if IsMarker(s[k]) && k % 2 == 0 then s[..k] + "\\" else s[..k]) + [s[k]] + EscapeMarkers(s[k + 1..])
  }

  function TextSpan(content: string): string {
    EscapeMarkers(Normalized(content))
  }

  // ----- Escaping a heading or bullet at the start ------------------------------

  function Blanks(s: string): (k: nat)
    ensures k <= |s| && (forall i :: 0 <= i < k ==> IsBlank(s[i])) && (k < |s| ==> !IsBlank(s[k]))
  {
    if s == [] || !IsBlank(s[0]) then 0 else 1 + Blanks(s[1..])
  }

  function Hashes(s: string): (k: nat)
    ensures k <= |s| && (forall i :: 0 <= i < k ==> s[i] == '#') && (k < |s| ==> s[k] != '#')
  {
    if s == [] || s[0] != '#' then 0 else 1 + Hashes(s[1..])
  }

  // One to six hashes, or a plus or minus sign, and then a blank.
  predicate OpensBlock(s: string) {
    var h := Hashes(s);
    || (1 <= h <= 6 && h < |s| && IsBlank(s[h]))
    || (|s| > 1 && (s[0] == '+' || s[0] == '-') && IsBlank(s[1]))
  }

  predicate StartsBlock(s: string) {
    Blanks(s) <= 3 && OpensBlock(s[Blanks(s)..])
  }

  predicate StartsEscapedBlock(s: string) {
    var b := Blanks(s);
    b <= 3 && b < |s| && s[b] == '\\' && OpensBlock(s[b + 1..])
  }

  function EscapePrefix(s: string): string {
    if StartsBlock(s) then s[..Blanks(s)] + "\\" + s[Blanks(s)..] else s
  }

  // ----- Decoding ----------------------------------------------------------------

  function DecodeMarkers(s: string): string
    decreases |s|
  {
    if s == [] then []
    else if |s| > 1 && s[0] == '\\' && IsMarker(s[1]) then [s[1]] + DecodeMarkers(s[2..])
    else [s[0]] + DecodeMarkers(s[1..])
  }

  function DecodePrefix(s: string): string {
    if StartsEscapedBlock(s) then s[..Blanks(s)] + s[Blanks(s) + 1..] else s
  }

  function DecodeTextEscapes(s: string): string {
    DecodePrefix(DecodeMarkers(s))
  }

  // ----- Idempotence --------------------------------------------------------------

  lemma {:induction false} RunOfSplit(p: string, c: char, rest: string)
    requires c != '\\' && forall i :: 0 <= i < |p| ==> p[i] == '\\'
    ensures Run(p + [c] + rest) == |p|
  {
    var s := p + [c] + rest;
    assert s[|p|] == c && forall i :: 0 <= i < |p| ==> s[i] == p[i];
  }

  // Every string is a run of backslashes followed by nothing, or by another
  // character and the rest.
  lemma {:induction false} EscapeOfSplit(p: string, c: char, rest: string)
    requires c != '\\' && forall i :: 0 <= i < |p| ==> p[i] == '\\'
    ensures EscapeMarkers(p + [c] + rest) ==
      (if IsMarker(c) && |p| % 2 == 0 then p + "\\" else p) + [c] + EscapeMarkers(rest)
  {
    var s := p + [c] + rest;
    RunOfSplit(p, c, rest);
    assert s[..|p|] == p && s[|p|] == c && s[|p| + 1..] == rest;
  }

  lemma {:induction false} EscapeUnfold(s: string)
    requires Run(s) < |s|
    ensures var k := Run(s);
      EscapeMarkers(s) == (if IsMarker(s[k]) && k % 2 == 0 then s[..k] + "\\" else s[..k]) + [s[k]] + EscapeMarkers(s[k + 1..])
  {
  }

  lemma {:induction false} EscapeMarkersIsIdempotent(s: string)
    ensures EscapeMarkers(EscapeMarkers(s)) == EscapeMarkers(s)
    decreases |s|
  {
    var k := Run(s);
    if k < |s| {
      EscapeUnfold(s);
      EscapeMarkersIsIdempotent(s[k + 1..]);
      EscapedStaysEscaped(s[..k], s[k], s[k + 1..]);
    }
  }

  lemma {:induction false} EscapedStaysEscaped(p: string, c: char, rest: string)
    requires c != '\\' && forall i :: 0 <= i < |p| ==> p[i] == '\\'
    requires EscapeMarkers(EscapeMarkers(rest)) == EscapeMarkers(rest)
    ensures var e := (if IsMarker(c) && |p| % 2 == 0 then p + "\\" else p) + [c] + EscapeMarkers(rest); EscapeMarkers(e) == e
  {
    hide EscapeMarkers;
    var q := if IsMarker(c) && |p| % 2 == 0 then p + "\\" else p;
    EscapeOfSplit(q, c, EscapeMarkers(rest));
  }

  lemma {:induction false} EscapeMarkersAddsOnlyBackslashes(s: string)
    ensures forall c :: c in EscapeMarkers(s) ==> c == '\\' || c in s
    decreases |s|
  {
    var k := Run(s);
    if k < |s| {
      EscapeMarkersAddsOnlyBackslashes(s[k + 1..]);
    }
  }

  // Escaping what is already escaped changes nothing, on every string.
  lemma {:induction false} TextSpanIsIdempotent(content: string)
    ensures TextSpan(TextSpan(content)) == TextSpan(content)
  {
    var n := Normalized(content);
    var e := EscapeMarkers(n);
    EscapeMarkersAddsOnlyBackslashes(n);
    forall i | 0 <= i < |e| ensures Narrow(e[i]) == e[i] {
      assert e[i] in e;
    }
    assert Normalized(e) == e;
    EscapeMarkersIsIdempotent(n);
  }

  // ----- The round trip -------------------------------------------------------------

  // The number of backslashes just before position i.
  function RunBefore(s: string, i: nat): nat
    requires i <= |s|
  {
    if i == 0 || s[i - 1] != '\\' then 0 else 1 + RunBefore(s, i - 1)
  }

  // Every marker follows an even run of backslashes.
  predicate MarkersAreEven(s: string) {
    forall i :: 0 <= i < |s| && IsMarker(s[i]) ==> RunBefore(s, i) % 2 == 0
  }

  // Markers that already carry an odd run, and so are not escaped again.
  function OddMarkers(s: string): nat
    decreases |s|
  {
    var k := Run(s);
    if k == |s| then 0 else (if IsMarker(s[k]) && k % 2 == 1 then 1 else 0) + OddMarkers(s[k + 1..])
  }

  lemma {:induction false} RunBeforeRun(s: string, i: nat)
    requires i <= Run(s)
    ensures RunBefore(s, i) == i
  {
    if i > 0 {
      RunBeforeRun(s, i - 1);
    }
  }

  lemma {:induction false} RunBeforeShifted(s: string, k: nat, j: nat)
    requires k < |s| && s[k] != '\\' && j <= |s| - k - 1
    ensures RunBefore(s, k + 1 + j) == RunBefore(s[k + 1..], j)
    decreases j
  {
    if j > 0 {
      RunBeforeShifted(s, k, j - 1);
    }
  }

  lemma {:induction false} NoOddMarkersMeansEven(s: string)
    ensures OddMarkers(s) == 0 <==> MarkersAreEven(s)
    decreases |s|
  {
    var k := Run(s);
    if k < |s| {
      NoOddMarkersMeansEven(s[k + 1..]);
      hide MarkersAreEven, Run;
      EvenOfSplit(s, k);
    }
  }

  lemma {:induction false} EvenOfSplit(s: string, k: nat)
    requires k == Run(s) < |s|
    ensures MarkersAreEven(s) <==> MarkersAreEven(s[k + 1..]) && !(IsMarker(s[k]) && k % 2 == 1)
  {
    var rest := s[k + 1..];
    RunBeforeRun(s, k);
    forall j | 0 <= j < |rest| ensures s[k + 1 + j] == rest[j] && RunBefore(s, k + 1 + j) == RunBefore(rest, j) {
      RunBeforeShifted(s, k, j);
    }
    hide RunBefore, Run;
    if MarkersAreEven(s) {
      forall j | 0 <= j < |rest| && IsMarker(rest[j]) ensures RunBefore(rest, j) % 2 == 0 {
        assert IsMarker(s[k + 1 + j]);
      }
    }
    if MarkersAreEven(rest) && !(IsMarker(s[k]) && k % 2 == 1) {
      forall i | 0 <= i < |s| && IsMarker(s[i]) ensures RunBefore(s, i) % 2 == 0 {
        assert i < k ==> s[i] == '\\';
        assert i > k ==> rest[i - k - 1] == s[i];
      }
    }
  }

  // Decoding removes one backslash from a run that a marker ends.
  lemma {:induction false} DecodeOfSplit(p: string, c: char, rest: string)
    requires c != '\\' && forall i :: 0 <= i < |p| ==> p[i] == '\\'
    ensures DecodeMarkers(p + [c] + rest) ==
      (if IsMarker(c) && p != [] then p[1..] else p) + [c] + DecodeMarkers(rest)
    decreases |p|
  {
    var s := p + [c] + rest;
    if p == [] {
      DecodePlain(c, rest);
      assert s == [c] + rest;
    } else if |p| == 1 && IsMarker(c) {
      DecodeEscapedMarker(c, rest);
      assert s == ['\\', c] + rest;
    } else {
      var more := p[1..] + [c] + rest;
      assert s == ['\\'] + more && p == ['\\'] + p[1..];
      assert more[0] == (if |p| > 1 then '\\' else c);
      DecodeLoneBackslash(more);
      DecodeOfSplit(p[1..], c, rest);
      hide DecodeMarkers;
      var inner := if IsMarker(c) && p[1..] != [] then p[1..][1..] else p[1..];
      var outer := if IsMarker(c) then p[1..] else p;
      assert outer == ['\\'] + inner;
      Regroup(['\\'], inner, [c], DecodeMarkers(rest));
    }
  }

  lemma {:induction false} Regroup(a: string, b: string, c: string, d: string)
    ensures a + (b + c + d) == (a + b) + c + d
  {
  }

  lemma {:induction false} DecodePlain(c: char, rest: string)
    requires c != '\\'
    ensures DecodeMarkers([c] + rest) == [c] + DecodeMarkers(rest)
  {
    assert ([c] + rest)[1..] == rest;
  }

  lemma {:induction false} DecodeEscapedMarker(c: char, rest: string)
    requires IsMarker(c)
    ensures DecodeMarkers(['\\', c] + rest) == [c] + DecodeMarkers(rest)
  {
    assert (['\\', c] + rest)[2..] == rest;
  }

  lemma {:induction false} DecodeLoneBackslash(more: string)
    requires more != [] && !IsMarker(more[0])
    ensures DecodeMarkers(['\\'] + more) == ['\\'] + DecodeMarkers(more)
  {
    assert (['\\'] + more)[1..] == more;
  }

  lemma {:induction false} DecodeOfRun(p: string)
    requires forall i :: 0 <= i < |p| ==> p[i] == '\\'
    ensures DecodeMarkers(p) == p
  {
    if p != [] {
      DecodeOfRun(p[1..]);
    }
  }

  // Decoding the escaped form of one run and its character.
  lemma {:induction false} DecodeEscapedSplit(p: string, c: char, rest: string)
    requires c != '\\' && forall i :: 0 <= i < |p| ==> p[i] == '\\'
    ensures DecodeMarkers(EscapeMarkers(p + [c] + rest)) ==
      (if IsMarker(c) && |p| % 2 == 1 then p[1..] else p) + [c] + DecodeMarkers(EscapeMarkers(rest))
  {
    hide DecodeMarkers, EscapeMarkers;
    EscapeOfSplit(p, c, rest);
    if IsMarker(c) && |p| % 2 == 0 {
      assert (p + "\\")[1..] == p;
      DecodeOfSplit(p + "\\", c, EscapeMarkers(rest));
    } else {
      DecodeOfSplit(p, c, EscapeMarkers(rest));
    }
  }

  lemma {:induction false} DecodeUndoesEscape(s: string)
    ensures var d := DecodeMarkers(EscapeMarkers(s));
      |d| == |s| - OddMarkers(s) && (OddMarkers(s) == 0 ==> d == s)
    decreases |s|
  {
    hide EscapeMarkers, DecodeMarkers;
    var k := Run(s);
    if k == |s| {
      EscapeOfRun(s);
      DecodeOfRun(s);
    } else {
      var p, c, rest := s[..k], s[k], s[k + 1..];
      assert s == p + [c] + rest;
      DecodeUndoesEscape(rest);
      DecodeEscapedSplit(p, c, rest);
    }
  }

  lemma {:induction false} EscapeOfRun(s: string)
    requires Run(s) == |s|
    ensures EscapeMarkers(s) == s
  {
  }

  // ----- Text that neither step touches ---------------------------------------------

  predicate IsPlain(c: char) {
    c != '\\' && !IsMarker(c)
  }

  lemma {:induction false} PlainPrefixIsKept(p: string, rest: string)
    requires forall i :: 0 <= i < |p| ==> IsPlain(p[i])
    ensures EscapeMarkers(p + rest) == p + EscapeMarkers(rest)
    ensures DecodeMarkers(p + rest) == p + DecodeMarkers(rest)
    decreases |p|
  {
    hide EscapeMarkers, DecodeMarkers;
    if p == [] {
      assert p + rest == rest;
      assert p + EscapeMarkers(rest) == EscapeMarkers(rest) && p + DecodeMarkers(rest) == DecodeMarkers(rest);
    } else {
      PlainPrefixIsKept(p[1..], rest);
      assert p + rest == [] + [p[0]] + (p[1..] + rest);
      EscapeOfSplit([], p[0], p[1..] + rest);
      DecodeOfSplit([], p[0], p[1..] + rest);
      assert p == [p[0]] + p[1..];
    }
  }

  // The plain text that decides whether s opens a heading or bullet.
  function BlockHead(s: string): (h: nat)
    requires OpensBlock(s)
    ensures 2 <= h <= |s| && forall i :: 0 <= i < h ==> IsPlain(s[i])
  {
    var n := Hashes(s);
    if 1 <= n <= 6 && n < |s| && IsBlank(s[n]) then n + 1 else 2
  }

  lemma {:induction false} OpensBlockByHead(s: string, t: string)
    requires OpensBlock(s) && BlockHead(s) <= |t| && t[..BlockHead(s)] == s[..BlockHead(s)]
    ensures OpensBlock(t)
  {
    var h, n := BlockHead(s), Hashes(s);
    assert forall i :: 0 <= i < h ==> t[i] == t[..h][i] == s[i];
    if 1 <= n <= 6 && n < |s| && IsBlank(s[n]) {
      assert Hashes(t) == n;
    }
  }

  // Escaping markers neither creates nor removes an opening of a block.
  lemma {:induction false} EscapeKeepsOpening(s: string)
    ensures OpensBlock(EscapeMarkers(s)) <==> OpensBlock(s)
    ensures OpensBlock(s) ==> var h := BlockHead(s); EscapeMarkers(s) == s[..h] + EscapeMarkers(s[h..])
  {
    if OpensBlock(s) {
      var h := BlockHead(s);
      assert s == s[..h] + s[h..];
      PlainPrefixIsKept(s[..h], s[h..]);
      OpensBlockByHead(s, EscapeMarkers(s));
    }
    if OpensBlock(EscapeMarkers(s)) {
      var h := BlockHead(EscapeMarkers(s));
      PlainHeadComesFromSource(s, h);
      assert s[..h] == EscapeMarkers(s)[..h];
      OpensBlockByHead(EscapeMarkers(s), s);
    }
  }

  lemma {:induction false} PlainHeadComesFromSource(s: string, h: nat)
    requires h <= |EscapeMarkers(s)| && forall i :: 0 <= i < h ==> IsPlain(EscapeMarkers(s)[i])
    ensures h <= |s| && forall i :: 0 <= i < h ==> s[i] == EscapeMarkers(s)[i]
    decreases |s|
  {
    hide EscapeMarkers;
    if h > 0 {
      PlainFirst(s);
      var e, rest := EscapeMarkers(s), EscapeMarkers(s[1..]);
      assert forall i :: 0 <= i < |rest| ==> e[i + 1] == rest[i];
      PlainHeadComesFromSource(s[1..], h - 1);
      forall i | 0 <= i < h ensures s[i] == e[i] {
        if i > 0 {
          assert s[i] == s[1..][i - 1] && e[i] == rest[i - 1];
        }
      }
    }
  }

  lemma {:induction false} PlainFirst(s: string)
    requires EscapeMarkers(s) != [] && IsPlain(EscapeMarkers(s)[0])
    ensures s != [] && EscapeMarkers(s) == [s[0]] + EscapeMarkers(s[1..])
  {
    assert Run(s) == 0;
  }

  lemma {:induction false} BlanksOfSplit(b: string, rest: string)
    requires forall i :: 0 <= i < |b| ==> IsBlank(b[i])
    requires rest == [] || !IsBlank(rest[0])
    ensures Blanks(b + rest) == |b| && (b + rest)[..|b|] == b && (b + rest)[|b|..] == rest
  {
    var s := b + rest;
    assert forall i :: 0 <= i < |b| ==> s[i] == b[i];
    assert rest != [] ==> s[|b|] == rest[0];
  }

  // ----- What is written opens nothing ---------------------------------------------------

  // Every marker follows an odd run of backslashes, so none takes effect.
  predicate MarkersAreOdd(s: string) {
    forall i :: 0 <= i < |s| && IsMarker(s[i]) ==> RunBefore(s, i) % 2 == 1
  }

  lemma {:induction false} EscapedMarkersAreOdd(s: string)
    ensures MarkersAreOdd(EscapeMarkers(s))
    decreases |s|
  {
    var k := Run(s);
    if k < |s| {
      EscapeUnfold(s);
      EscapedMarkersAreOdd(s[k + 1..]);
      hide EscapeMarkers, Run, MarkersAreOdd;
      var q := if IsMarker(s[k]) && k % 2 == 0 then s[..k] + "\\" else s[..k];
      OddAfterSplit(q, s[k], EscapeMarkers(s[k + 1..]));
    }
  }

  lemma {:induction false} OddAfterSplit(q: string, c: char, rest: string)
    requires c != '\\' && forall i :: 0 <= i < |q| ==> q[i] == '\\'
    requires MarkersAreOdd(rest) && (IsMarker(c) ==> |q| % 2 == 1)
    ensures MarkersAreOdd(q + [c] + rest)
  {
    var s := q + [c] + rest;
    hide RunBefore, IsMarker;
    forall i | 0 <= i < |s| && IsMarker(s[i]) ensures RunBefore(s, i) % 2 == 1 {
      OddAt(q, c, rest, i);
    }
  }

  lemma {:induction false} OddAt(q: string, c: char, rest: string, i: nat)
    requires c != '\\' && forall i :: 0 <= i < |q| ==> q[i] == '\\'
    requires MarkersAreOdd(rest) && (IsMarker(c) ==> |q| % 2 == 1)
    requires i < |q + [c] + rest| && IsMarker((q + [c] + rest)[i])
    ensures RunBefore(q + [c] + rest, i) % 2 == 1
  {
    if i <= |q| {
      RunOfSplit(q, c, rest);
      RunBeforeRun(q + [c] + rest, |q|);
    } else {
      OddInRest(q, c, rest, i - |q| - 1);
    }
  }

  lemma {:induction false} OddInRest(q: string, c: char, rest: string, j: nat)
    requires c != '\\' && MarkersAreOdd(rest) && j < |rest| && IsMarker(rest[j])
    ensures var s := q + [c] + rest; |q| + 1 + j < |s| && RunBefore(s, |q| + 1 + j) % 2 == 1
  {
    var s := q + [c] + rest;
    assert s[|q|] == c && s[|q| + 1..] == rest;
    hide RunBefore;
    RunBeforeShifted(s, |q|, j);
  }

  // What the writer emits has no live marker and opens no heading or bullet; text that
  // opens none keeps its beginning.
  lemma {:induction false} WrittenTextOpensNothing(content: string)
    ensures MarkersAreOdd(TextSpan(content))
    ensures var t := EscapePrefix(TextSpan(content));
      !StartsBlock(t) && (t == TextSpan(content) <==> !StartsBlock(TextSpan(content)))
  {
    EscapedMarkersAreOdd(Normalized(content));
    PrefixIsClosed(TextSpan(content));
  }

  // Two spans are joined without a blank at some line ends. The joint keeps every marker
  // dead unless the first span ends in an odd run of backslashes and the second begins
  // with a marker, after its own run.
  lemma {:induction false} JoinedSpansAreDeadIff(a: string, b: string)
    requires MarkersAreOdd(a) && MarkersAreOdd(b)
    ensures MarkersAreOdd(a + b) <==> !(Run(b) < |b| && IsMarker(b[Run(b)]) && RunBefore(a, |a|) % 2 == 1)
  {
    forall i | 0 <= i < |a + b| && IsMarker((a + b)[i])
      ensures RunBefore(a + b, i) % 2 == 1 <==> !(i == |a| + Run(b) && RunBefore(a, |a|) % 2 == 1)
    {
      JoinedMarker(a, b, i);
    }
    var k := Run(b);
    assert k < |b| ==> (a + b)[|a| + k] == b[k];
    hide RunBefore, Run, IsMarker;
  }

  lemma {:induction false} JoinedMarker(a: string, b: string, i: nat)
    requires MarkersAreOdd(a) && MarkersAreOdd(b) && i < |a + b| && IsMarker((a + b)[i])
    ensures RunBefore(a + b, i) % 2 == 1 <==> !(i == |a| + Run(b) && RunBefore(a, |a|) % 2 == 1)
  {
    hide RunBefore, Run;
    if i < |a| {
      assert (a + b)[i] == a[i];
      RunBeforeInPrefix(a, b, i);
    } else {
      var j: nat := i - |a|;
      assert (a + b)[i] == b[j];
      RunBeforeJoined(a, b, j);
      if j == Run(b) {
        RunBeforeRun(b, j);
      }
    }
  }

  lemma {:induction false} RunBeforeInPrefix(a: string, b: string, i: nat)
    requires i <= |a|
    ensures RunBefore(a + b, i) == RunBefore(a, i)
    decreases i
  {
    if i > 0 {
      RunBeforeInPrefix(a, b, i - 1);
    }
  }

  lemma {:induction false} RunBeforeJoined(a: string, b: string, j: nat)
    requires j <= |b|
    ensures RunBefore(a + b, |a| + j) == if j <= Run(b) then RunBefore(a, |a|) + j else RunBefore(b, j)
    decreases j
  {
    if j == 0 {
      RunBeforeInPrefix(a, b, |a|);
    } else {
      assert (a + b)[|a| + j - 1] == b[j - 1];
      RunBeforeJoined(a, b, j - 1);
    }
  }

  // Such a pair: a lone backslash, then a star.
  lemma {:induction false} JoinedSpanCanComeAlive()
    ensures TextSpan("\\") == "\\" && TextSpan("*") == "\\*"
    ensures !MarkersAreOdd(TextSpan("\\") + TextSpan("*"))
  {
    assert Normalized("\\") == "\\" && Normalized("*") == "*";
    assert Run("\\") == 1 && Run("*") == 0;
    assert EscapeMarkers("") == "";
    var joined := "\\" + "\\*";
    assert joined[2] == '*' && joined[1] == '\\' && joined[0] == '\\';
    assert RunBefore(joined, 1) == 1 && RunBefore(joined, 2) == 2;
  }

  lemma {:induction false} PrefixIsClosed(s: string)
    ensures !StartsBlock(EscapePrefix(s)) && (EscapePrefix(s) == s <==> !StartsBlock(s))
  {
    if StartsBlock(s) {
      var b := Blanks(s);
      BlanksOfSplit(s[..b], "\\" + s[b..]);
      assert EscapePrefix(s) == s[..b] + ("\\" + s[b..]);
      assert |EscapePrefix(s)| == |s| + 1;
    }
  }

  // ----- What is written is what is read -----------------------------------------------

  lemma {:induction false} EscapeKeepsIndent(s: string)
    ensures var b := Blanks(s); var rest := s[b..];
      && EscapeMarkers(s) == s[..b] + EscapeMarkers(rest)
      && Blanks(EscapeMarkers(s)) == b && EscapeMarkers(s)[b..] == EscapeMarkers(rest)
  {
    var b := Blanks(s);
    var rest := s[b..];
    assert s == s[..b] + rest;
    PlainPrefixIsKept(s[..b], rest);
    if rest != [] {
      var k := Run(rest);
      assert EscapeMarkers(rest) != [] && !IsBlank(EscapeMarkers(rest)[0]);
    }
    BlanksOfSplit(s[..b], EscapeMarkers(rest));
  }

  // A block opening escaped by the writer is unescaped by the reader.
  lemma {:induction false} BlockRoundTrip(s: string)
    requires StartsBlock(s)
    ensures DecodeTextEscapes(EscapePrefix(EscapeMarkers(s))) == DecodeMarkers(EscapeMarkers(s))
    ensures !StartsEscapedBlock(s)
  {
    var b := Blanks(s);
    var indent, rest := s[..b], s[b..];
    var h := BlockHead(rest);
    var head, e := rest[..h], EscapeMarkers(rest[h..]);
    StartsOnlyOnce(s);
    BlockIsEscaped(s);
    EscapeKeepsOpening(rest);
    DecodePlainHead(indent, head, e);
    OpensBlockByHead(rest, head + DecodeMarkers(e));
    hide EscapeMarkers, DecodeMarkers, Blanks, BlockHead, OpensBlock, EscapePrefix, StartsEscapedBlock, DecodePrefix;
    DecodePrefixDropsBackslash(indent, head + DecodeMarkers(e));
  }

  // The escaped text of a block, before and after its prefix is escaped.
  lemma {:induction false} BlockIsEscaped(s: string)
    requires StartsBlock(s)
    ensures var b := Blanks(s); var indent, rest := s[..b], s[b..];
      var h := BlockHead(rest); var head, e := rest[..h], EscapeMarkers(rest[h..]);
      && EscapeMarkers(s) == indent + (head + e)
      && EscapePrefix(EscapeMarkers(s)) == indent + ("\\" + (head + e))
  {
    var b := Blanks(s);
    EscapeKeepsIndent(s);
    EscapeKeepsOpening(s[b..]);
    var body := EscapeMarkers(s[b..]);
    hide EscapeMarkers, BlockHead, OpensBlock, Blanks, EscapePrefix;
    PrefixIsEscaped(s[..b], body);
  }

  lemma {:induction false} PrefixIsEscaped(indent: string, body: string)
    requires |indent| <= 3 && OpensBlock(body) && forall i :: 0 <= i < |indent| ==> IsBlank(indent[i])
    ensures EscapePrefix(indent + body) == indent + ("\\" + body)
  {
    OpeningIsNotBlank(body);
    hide OpensBlock, Blanks;
    BlanksOfSplit(indent, body);
    assert indent + "\\" + body == indent + ("\\" + body);
  }

  lemma {:induction false} OpeningIsNotBlank(body: string)
    requires OpensBlock(body)
    ensures body != [] && !IsBlank(body[0])
  {
  }

  lemma {:induction false} StartsOnlyOnce(s: string)
    requires StartsBlock(s)
    ensures !StartsEscapedBlock(s)
  {
  }

  lemma {:induction false} DecodePlainHead(indent: string, head: string, e: string)
    requires head != [] && (forall i :: 0 <= i < |indent| ==> IsBlank(indent[i])) && forall i :: 0 <= i < |head| ==> IsPlain(head[i])
    ensures DecodeMarkers(indent + (head + e)) == indent + (head + DecodeMarkers(e))
    ensures DecodeMarkers(indent + ("\\" + (head + e))) == indent + ("\\" + (head + DecodeMarkers(e)))
  {
    hide DecodeMarkers;
    var t := head + e;
    PlainPrefixIsKept(head, e);
    PlainPrefixIsKept(indent, t);
    DecodeLoneBackslash(t);
    PlainPrefixIsKept(indent, "\\" + t);
  }

  lemma {:induction false} DecodePrefixDropsBackslash(indent: string, d: string)
    requires |indent| <= 3 && (forall i :: 0 <= i < |indent| ==> IsBlank(indent[i])) && OpensBlock(d)
    ensures DecodePrefix(indent + ("\\" + d)) == indent + d
  {
    hide OpensBlock;
    BlanksOfSplit(indent, "\\" + d);
    var s := indent + ("\\" + d);
    assert s[|indent| + 1..] == d;
  }

  // Reading back what was written gives the normalised text exactly when every
  // marker follows an even run of backslashes and the text does not itself begin
  // with an escaped heading or bullet.
  lemma {:induction false} DecodeInvertsEscapeIff(content: string)
    ensures var n := Normalized(content);
      DecodeTextEscapes(EscapePrefix(TextSpan(content))) == n <==> MarkersAreEven(n) && !StartsEscapedBlock(n)
  {
    var n := Normalized(content);
    var e := EscapeMarkers(n);
    DecodeUndoesEscape(n);
    NoOddMarkersMeansEven(n);
    if StartsBlock(n) {
      BlockRoundTrip(n);
    } else {
      EscapeKeepsIndent(n);
      EscapeKeepsOpening(n[Blanks(n)..]);
      assert EscapePrefix(e) == e;
    }
  }

  // Without the writer's prefix escape, the same condition decides whether a span
  // alone is read back.
  lemma {:induction false} DecodeInvertsTextSpanIff(content: string)
    ensures var n := Normalized(content);
      DecodeTextEscapes(TextSpan(content)) == n <==> MarkersAreEven(n) && !StartsEscapedBlock(n)
  {
    var n := Normalized(content);
    DecodeUndoesEscape(n);
    NoOddMarkersMeansEven(n);
  }

  // Both conditions can fail: an escaped star and an escaped heading are not read back.
  lemma {:induction false} LossyExamples()
    ensures DecodeTextEscapes(TextSpan("\\*")) != Normalized("\\*")
    ensures DecodeTextEscapes(TextSpan("\\# a")) != Normalized("\\# a")
  {
    hide DecodeTextEscapes, TextSpan;
    DecodeInvertsTextSpanIff("\\*");
    DecodeInvertsTextSpanIff("\\# a");
    assert Normalized("\\*") == "\\*" && Normalized("\\# a") == "\\# a";
    assert IsMarker("\\*"[1]) && RunBefore("\\*", 1) == 1;
    assert OpensBlock("\\# a"[1..]) by {
      assert "\\# a"[1..] == "# a" && Hashes("# a") == 1;
    }
  }

  // Behind no backslash the five markers gain one, and no other character does.
  lemma {:induction false} EscapedMarkers(c: char, rest: string)
    requires c != '\\'
    ensures EscapeMarkers([c] + rest) == (if c in "*_`~$" then ['\\', c] else [c]) + EscapeMarkers(rest)
  {
    assert [] + [c] + rest == [c] + rest;
    EscapeOfSplit([], c, rest);
    assert [] + "\\" + [c] == ['\\', c] && [] + [c] == [c];
  }

  // The full-width form of an ASCII character is narrowed exactly if it is a letter or digit.
  lemma {:induction false} NarrowedForms(c: char)
    requires (c as int) < 0x80
    ensures var wide := (c as int + 0xFEE0) as char;
      Narrow(wide) == if '0' <= c <= '9' || 'A' <= c <= 'Z' || 'a' <= c <= 'z' then c else wide
  {
  }

  // What opens a block: one to six hashes or a sign, behind at most three blanks, before one.
  lemma {:induction false} OpenedBlocks(blanks: string, mark: string, rest: string)
    requires forall i :: 0 <= i < |blanks| ==> blanks[i] == ' ' || blanks[i] == '\t'
    requires mark != [] && forall i :: 0 <= i < |mark| ==> mark[i] == '#'
    requires rest != [] && rest[0] != '#'
    ensures StartsBlock(blanks + (mark + rest)) <==> |blanks| <= 3 && |mark| <= 6 && (rest[0] == ' ' || rest[0] == '\t')
  {
    var s := mark + rest;
    assert s[0] == '#';
    BlanksOfSplit(blanks, s);
    assert s[|mark|] == rest[0] && forall i :: 0 <= i < |mark| ==> s[i] == mark[i];
    HashesAre(s, |mark|);
    hide Hashes, Blanks;
  }

  lemma {:induction false} HashesAre(s: string, n: nat)
    requires n < |s| && s[n] != '#' && forall i :: 0 <= i < n ==> s[i] == '#'
    ensures Hashes(s) == n
  {
    var k := Hashes(s);
    hide Hashes;
  }

  lemma {:induction false} OpenedBullets(blanks: string, mark: char, rest: string)
    requires forall i :: 0 <= i < |blanks| ==> blanks[i] == ' ' || blanks[i] == '\t'
    requires !IsBlank(mark) && mark != '#' && rest != []
    ensures StartsBlock(blanks + ([mark] + rest)) <==>
      |blanks| <= 3 && (mark == '+' || mark == '-') && (rest[0] == ' ' || rest[0] == '\t')
  {
    var s := [mark] + rest;
    BlanksOfSplit(blanks, s);
    assert s[0] == mark && s[1] == rest[0];
    HashesAre(s, 0);
    hide Hashes, Blanks;
  }
}
