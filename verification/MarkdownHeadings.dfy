// Collecting ATX headings from Markdown lines, outside fenced code.
module MarkdownHeadings {
  import opened Common

  // What the two line patterns see: the first character of a leading run of at
  // least three backquotes or tildes, and an ATX marker length with cleaned title.
  datatype Line = Line(fence: Option<char>, atx: Option<(nat, string)>)

  datatype Heading = Heading(title: string, line: nat, sourceLevel: nat)

  // The character of the fence left open by the first n lines.
  function OpenFence(lines: seq<Line>, n: nat): Option<char>
    requires n <= |lines|
  {
    if n == 0 then None else Toggled(OpenFence(lines, n - 1), lines[n - 1].fence)
  }

  function Toggled(open: Option<char>, marker: Option<char>): Option<char> {
    if marker.None? then open
    else if open.None? then marker
    else if marker == open then None else open
  }

  predicate IsHeading(lines: seq<Line>, n: nat)
    requires n < |lines|
  {
    var line := lines[n];
    line.fence.None? && OpenFence(lines, n).None? && line.atx.Some? && line.atx.value.1 != ""
  }

  function Headings(lines: seq<Line>, n: nat): seq<Heading>
    requires n <= |lines|
  {
    if n == 0 then []
    else if IsHeading(lines, n - 1) then Headings(lines, n - 1) + [HeadingAt(lines, n - 1)]
    else Headings(lines, n - 1)
  }

  function HeadingAt(lines: seq<Line>, n: nat): Heading
    requires n < |lines| && IsHeading(lines, n)
  {
    Heading(lines[n].atx.value.1, n + 1, lines[n].atx.value.0)
  }

  method Collect(lines: seq<Line>) returns (values: seq<Heading>)
    ensures values == Headings(lines, |lines|)
  {
    values := [];
    var inFence, fence := false, ' ';
    for n := 0 to |lines|
      invariant values == Headings(lines, n)
      invariant OpenFence(lines, n) == if inFence then Some(fence) else None
    {
      var line := lines[n];
      if line.fence.Some? {
        var marker := line.fence.value;
        if !inFence {
          inFence, fence := true, marker;
        } else if marker == fence {
          inFence, fence := false, ' ';
        }
        continue;
      }
      if inFence {
        continue;
      }
      if line.atx.Some? && line.atx.value.1 != "" {
        values := values + [Heading(line.atx.value.1, n + 1, line.atx.value.0)];
      }
    }
  }

  // Line o opens a fence that is still open before line n: no line between them
  // carries the same fence character.
  ghost predicate OpensAcross(lines: seq<Line>, o: int, n: nat)
    requires n <= |lines|
  {
    && 0 <= o < n
    && lines[o].fence.Some?
    && OpenFence(lines, o).None?
    && forall m :: o < m < n ==> lines[m].fence != lines[o].fence
  }

  lemma {:induction false} InsideFenceMeansUnclosedOpener(lines: seq<Line>, n: nat)
    requires n <= |lines|
    ensures OpenFence(lines, n).Some? <==> exists o :: OpensAcross(lines, o, n)
    ensures forall o :: OpensAcross(lines, o, n) ==> OpenFence(lines, n) == lines[o].fence
  {
    if OpenFence(lines, n).Some? {
      var o := FindOpener(lines, n);
    }
    forall o | OpensAcross(lines, o, n) ensures OpenFence(lines, n) == lines[o].fence {
      OpenerIsStillOpen(lines, o, n);
    }
  }

  lemma {:induction false} FindOpener(lines: seq<Line>, n: nat) returns (o: nat)
    requires n <= |lines| && OpenFence(lines, n).Some?
    ensures OpensAcross(lines, o, n) && OpenFence(lines, n) == lines[o].fence
    decreases n
  {
    if OpenFence(lines, n - 1).None? {
      o := n - 1;
    } else {
      o := FindOpener(lines, n - 1);
    }
  }

  lemma {:induction false} OpenerIsStillOpen(lines: seq<Line>, o: nat, n: nat)
    requires n <= |lines| && OpensAcross(lines, o, n)
    ensures OpenFence(lines, n) == lines[o].fence
    decreases n
  {
    if o < n - 1 {
      OpenerIsStillOpen(lines, o, n - 1);
    }
  }

  // The headings are the ATX lines outside every fence, each once, in line order.
  lemma {:induction false} HeadingsListHeadingLines(lines: seq<Line>, n: nat)
    requires n <= |lines|
    ensures var hs := Headings(lines, n);
      && (forall h :: h in hs ==> 1 <= h.line <= n && IsHeading(lines, h.line - 1) && h == HeadingAt(lines, h.line - 1))
      && (forall i, j :: 0 <= i < j < |hs| ==> hs[i].line < hs[j].line)
      && (forall m :: 0 <= m < n && IsHeading(lines, m) ==> HeadingAt(lines, m) in hs)
  {
    if n > 0 {
      HeadingsListHeadingLines(lines, n - 1);
    }
  }

  // The line has an ATX title and stands in no fence.
  ghost predicate IsTitled(lines: seq<Line>, m: nat)
    requires m < |lines|
  {
    && lines[m].fence.None? && lines[m].atx.Some? && lines[m].atx.value.1 != ""
    && forall o :: !OpensAcross(lines, o, m)
  }

  // A heading carries its line's number, title and marker length, and every such line has one.
  lemma {:induction false} HeadingsCarryTheirLines(lines: seq<Line>)
    ensures var hs := Headings(lines, |lines|);
      && (forall h :: h in hs ==>
            && 1 <= h.line <= |lines| && IsTitled(lines, h.line - 1)
            && h.title == lines[h.line - 1].atx.value.1 && h.sourceLevel == lines[h.line - 1].atx.value.0)
      && (forall m :: 0 <= m < |lines| && IsTitled(lines, m) ==> exists h :: h in hs && h.line == m + 1)
  {
    HeadingsListHeadingLines(lines, |lines|);
    forall m: nat | m < |lines| ensures IsTitled(lines, m) <==> IsHeading(lines, m) {
      InsideFenceMeansUnclosedOpener(lines, m);
    }
    hide IsTitled, Headings, OpenFence;
    forall m: nat | m < |lines| && IsTitled(lines, m) ensures exists h :: h in Headings(lines, |lines|) && h.line == m + 1 {
      assert HeadingAt(lines, m) in Headings(lines, |lines|);
    }
  }
}
