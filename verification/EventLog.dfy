// The append-only event log: appends repair a torn tail, number records without a
// full scan, and may themselves be torn at any byte.
module EventLog {
  import opened Common

  type Byte = b: int | 0 <= b < 256

  const MAX_EVENT_BYTES := 256 * 1024
  const MAX_TAIL_BYTES := 1024 * 1024
  const CHUNK_BYTES := 64 * 1024
  const LF: Byte := 10
  const CR: Byte := 13

  datatype Record = Record(sequence: nat, event: int)

  // The JSON codec: decode also validates a record's fields.
  datatype Codec = Codec(encode: Record -> seq<Byte>, decode: seq<Byte> -> Option<Record>)

  predicate IsEol(b: Byte) {
    b == LF || b == CR
  }

  predicate NoEol(bytes: seq<Byte>) {
    forall i :: 0 <= i < |bytes| ==> !IsEol(bytes[i])
  }

  // Canonical JSON of a record holds no line break and reads back as the record.
  ghost predicate Faithful(codec: Codec) {
    forall r :: NoEol(codec.encode(r)) && codec.encode(r) != [] && codec.decode(codec.encode(r)) == Some(r)
  }

  function Encoded(codec: Codec, r: Record): (line: seq<Byte>)
    ensures |line| == |codec.encode(r)| + 1
  {
    codec.encode(r) + [LF]
  }

  // The complete log of some records.
  function LogOf(codec: Codec, rs: seq<Record>): seq<Byte> {
    if rs == [] then [] else LogOf(codec, rs[..|rs| - 1]) + Encoded(codec, rs[|rs| - 1])
  }

  // ----- Lines ------------------------------------------------------------------------

  // The index just after the last line break.
  function LastEnd(bytes: seq<Byte>): (n: nat)
    ensures n <= |bytes| && (n > 0 ==> IsEol(bytes[n - 1]))
    ensures forall i :: n <= i < |bytes| ==> !IsEol(bytes[i])
  {
    if bytes == [] || IsEol(bytes[|bytes| - 1]) then |bytes| else LastEnd(bytes[..|bytes| - 1])
  }

  function FirstEol(bytes: seq<Byte>): (n: nat)
    ensures n <= |bytes| && (n < |bytes| ==> IsEol(bytes[n]))
    ensures forall i :: 0 <= i < n ==> !IsEol(bytes[i])
  {
    if bytes == [] || IsEol(bytes[0]) then 0 else 1 + FirstEol(bytes[1..])
  }

  datatype Piece = Piece(content: seq<Byte>, terminated: bool)

  // Splits at LF, CR and CR LF.
  function Pieces(bytes: seq<Byte>): seq<Piece>
    decreases |bytes|
  {
    if bytes == [] then []
    else
      var n := FirstEol(bytes);
      if n == |bytes| then [Piece(bytes, false)] else [Piece(bytes[..n], true)] + Pieces(bytes[NextLine(bytes, n)..])
  }

  // Where the next line starts, after the line break at n.
  function NextLine(bytes: seq<Byte>, n: nat): (next: nat)
    requires n < |bytes|
    ensures n < next <= |bytes|
  {
    if bytes[n] == CR && n + 1 < |bytes| && bytes[n + 1] == LF then n + 2 else n + 1
  }

  lemma {:induction false} PiecesUnfold(bytes: seq<Byte>)
    requires FirstEol(bytes) < |bytes|
    ensures var n := FirstEol(bytes); Pieces(bytes) == [Piece(bytes[..n], true)] + Pieces(bytes[NextLine(bytes, n)..])
  {
  }

  lemma {:induction false} PiecesCompose(a: seq<Byte>, b: seq<Byte>)
    requires a == [] || a[|a| - 1] == LF
    ensures Pieces(a + b) == Pieces(a) + Pieces(b)
    decreases |a|
  {
    if a == [] {
      assert a + b == b;
    } else {
      var n := FirstEol(a);
      FirstEolOfPrefix(a, b);
      PiecesUnfold(a);
      PiecesUnfold(a + b);
      hide Pieces, FirstEol, NextLine;
      NextLineOfPrefix(a, b, n);
      PiecesCompose(a[NextLine(a, n)..], b);
      Associates([Piece(a[..n], true)], Pieces(a[NextLine(a, n)..]), Pieces(b));
    }
  }

  lemma {:induction false} Associates<T>(a: seq<T>, b: seq<T>, c: seq<T>)
    ensures a + b + c == a + (b + c)
  {
  }

  lemma {:induction false} NextLineOfPrefix(a: seq<Byte>, b: seq<Byte>, n: nat)
    requires n < |a| && IsEol(a[n]) && a[|a| - 1] == LF
    ensures var next := NextLine(a, n);
      && NextLine(a + b, n) == next && (a + b)[..n] == a[..n] && (a + b)[next..] == a[next..] + b
      && (a[next..] == [] || a[next..][|a[next..]| - 1] == LF)
  {
  }

  lemma {:induction false} FirstEolOfPrefix(a: seq<Byte>, b: seq<Byte>)
    requires a != [] && a[|a| - 1] == LF
    ensures FirstEol(a) < |a| && FirstEol(a + b) == FirstEol(a)
  {
    var n, m := FirstEol(a), FirstEol(a + b);
    assert IsEol(a[|a| - 1]) && forall i :: 0 <= i < |a| ==> (a + b)[i] == a[i];
  }

  lemma {:induction false} PiecesOfLine(body: seq<Byte>)
    requires NoEol(body)
    ensures Pieces(body + [LF]) == [Piece(body, true)]
  {
    var line := body + [LF];
    FirstEolOfPrefix(line, []);
    var n := FirstEol(line);
    assert forall i :: 0 <= i < |body| ==> line[i] == body[i];
    assert line[..n] == body && line[n + 1..] == [];
  }

  // ----- Lines of any file ---------------------------------------------------------------

  // What ends a line: a line break, or nothing at the end of the file.
  predicate IsLineEnd(end: seq<Byte>) {
    end == [] || end == [LF] || end == [CR] || end == [CR, LF]
  }

  // The lines with their ends, put together again.
  function Glued(pieces: seq<Piece>, ends: seq<seq<Byte>>): seq<Byte>
    requires |pieces| == |ends|
  {
    if pieces == [] then [] else pieces[0].content + ends[0] + Glued(pieces[1..], ends[1..])
  }

  ghost predicate IsLine(piece: Piece, end: seq<Byte>) {
    NoEol(piece.content) && IsLineEnd(end) && (piece.terminated <==> end != []) && (end == [] ==> piece.content != [])
  }

  // A carriage return and the line feed after it are one break, and only the last line can
  // be without one.
  ghost predicate Follows(end: seq<Byte>, piece: Piece, next: seq<Byte>) {
    end != [] && !(end == [CR] && piece.content == [] && next == [LF])
  }

  ghost predicate AreLines(pieces: seq<Piece>, ends: seq<seq<Byte>>) {
    && |pieces| == |ends| && (forall i :: 0 <= i < |ends| ==> IsLine(pieces[i], ends[i]))
    && (forall i :: 0 < i < |ends| ==> Follows(ends[i - 1], pieces[i], ends[i]))
  }

  // Every file is its lines, in order, with their breaks.
  lemma {:induction false} FileIsItsLines(bytes: seq<Byte>) returns (ends: seq<seq<Byte>>)
    ensures AreLines(Pieces(bytes), ends) && Glued(Pieces(bytes), ends) == bytes
    decreases |bytes|
  {
    var n := FirstEol(bytes);
    if bytes == [] {
      ends := [];
    } else if n == |bytes| {
      ends := [[]];
      assert Glued(Pieces(bytes), ends) == bytes + [] + [];
    } else {
      var next := NextLine(bytes, n);
      var rest := FileIsItsLines(bytes[next..]);
      PiecesUnfold(bytes);
      var end := bytes[n..next];
      ends := [end] + rest;
      hide Pieces, FirstEol;
      OneMoreLine(bytes, n, Pieces(bytes[next..]), rest);
    }
  }

  lemma {:induction false} OneMoreLine(bytes: seq<Byte>, n: nat, pieces: seq<Piece>, ends: seq<seq<Byte>>)
    requires n < |bytes| && IsEol(bytes[n]) && NoEol(bytes[..n])
    requires AreLines(pieces, ends) && Glued(pieces, ends) == bytes[NextLine(bytes, n)..]
    ensures var next := NextLine(bytes, n); var all := [bytes[n..next]] + ends;
      AreLines([Piece(bytes[..n], true)] + pieces, all) && Glued([Piece(bytes[..n], true)] + pieces, all) == bytes
  {
    var next := NextLine(bytes, n);
    var end := bytes[n..next];
    var first := Piece(bytes[..n], true);
    var more, all := [first] + pieces, [end] + ends;
    assert more[1..] == pieces && all[1..] == ends;
    assert bytes == bytes[..n] + end + bytes[next..];
    assert end == [LF] || end == [CR] || end == [CR, LF];
    assert IsLine(first, end);
    if pieces != [] {
      assert Glued(pieces, ends) == pieces[0].content + ends[0] + Glued(pieces[1..], ends[1..]);
      if pieces[0].content == [] && ends[0] == [LF] {
        assert bytes[next] == bytes[next..][0] == LF;
      }
      assert Follows(end, pieces[0], ends[0]);
    }
    hide Follows, IsLine, Glued;
    forall i | 0 < i < |all| ensures Follows(all[i - 1], more[i], all[i]) {
      if i > 1 {
        assert Follows(ends[i - 2], pieces[i - 1], ends[i - 1]);
      }
    }
  }

  // Where the last line starts.
  function LastLine(bytes: seq<Byte>): (n: nat)
    ensures n <= |bytes|
    decreases |bytes|
  {
    var n := FirstEol(bytes);
    if n == |bytes| || NextLine(bytes, n) == |bytes| then 0
    else NextLine(bytes, n) + LastLine(bytes[NextLine(bytes, n)..])
  }

  lemma {:induction false} OnlyLine(bytes: seq<Byte>)
    requires bytes != [] && (FirstEol(bytes) == |bytes| || NextLine(bytes, FirstEol(bytes)) == |bytes|)
    ensures LastLine(bytes) == 0 && |Pieces(bytes)| == 1 && bytes[0..] == bytes
  {
    assert bytes[|bytes|..] == [];
    if FirstEol(bytes) < |bytes| {
      PiecesUnfold(bytes);
    }
  }

  lemma {:induction false} LaterLine(bytes: seq<Byte>)
    requires FirstEol(bytes) < |bytes| && NextLine(bytes, FirstEol(bytes)) < |bytes|
    ensures var n := FirstEol(bytes); var next := NextLine(bytes, n);
      LastLine(bytes) == next + LastLine(bytes[next..]) && Pieces(bytes) == [Piece(bytes[..n], true)] + Pieces(bytes[next..])
    ensures IsEol(bytes[NextLine(bytes, FirstEol(bytes)) - 1])
  {
    PiecesUnfold(bytes);
    hide Pieces;
  }

  // The last line starts the file or stands after a line break, and is one line.
  lemma {:induction false} LastLineIsOneLine(bytes: seq<Byte>)
    requires bytes != []
    ensures var at := LastLine(bytes); var pieces := Pieces(bytes);
      at < |bytes| && (at > 0 ==> IsEol(bytes[at - 1])) && pieces != [] && Pieces(bytes[at..]) == [pieces[|pieces| - 1]]
    decreases |bytes|
  {
    hide *;
    var n := FirstEol(bytes);
    if n == |bytes| || NextLine(bytes, n) == |bytes| {
      OnlyLine(bytes);
    } else {
      var next := NextLine(bytes, n);
      LaterLine(bytes);
      LastLineIsOneLine(bytes[next..]);
      var at := LastLine(bytes[next..]);
      ByteOfRest(bytes, next, at);
    }
  }

  lemma {:induction false} ByteOfRest(bytes: seq<Byte>, next: nat, at: nat)
    requires next + at <= |bytes|
    ensures bytes[next..][at..] == bytes[next + at..]
    ensures at > 0 ==> bytes[next..][at - 1] == bytes[next + at - 1]
  {
  }

  // A window to the end of the file has two lines exactly when it begins before the last
  // one, and then ends with that one.
  lemma {:induction false} WindowSeesLastLine(bytes: seq<Byte>, start: nat)
    requires start < |bytes|
    ensures var seen, pieces := Pieces(bytes[start..]), Pieces(bytes);
      && seen != [] && pieces != [] && (|seen| >= 2 <==> start < LastLine(bytes))
      && (start <= LastLine(bytes) ==> seen[|seen| - 1] == pieces[|pieces| - 1])
    decreases |bytes|
  {
    hide *;
    var n := FirstEol(bytes);
    if n == |bytes| || NextLine(bytes, n) == |bytes| {
      OnlyLine(bytes);
      OnlyLineFrom(bytes, start);
    } else {
      var next := NextLine(bytes, n);
      LaterLine(bytes);
      if start < next {
        WindowSeesLastLine(bytes[next..], 0);
        PiecesFrom(bytes, start, n);
        WholeWindow(bytes[next..]);
      } else {
        WindowSeesLastLine(bytes[next..], start - next);
        ByteOfRest(bytes, next, start - next);
      }
    }
  }

  lemma {:induction false} WholeWindow(bytes: seq<Byte>)
    ensures bytes[0..] == bytes
  {
  }

  // A window into an only line.
  lemma {:induction false} OnlyLineFrom(bytes: seq<Byte>, start: nat)
    requires start < |bytes| && (FirstEol(bytes) == |bytes| || NextLine(bytes, FirstEol(bytes)) == |bytes|)
    ensures |Pieces(bytes[start..])| == 1
  {
    var n := FirstEol(bytes);
    if n < |bytes| {
      PiecesFrom(bytes, start, n);
      assert bytes[|bytes|..] == [];
    } else {
      var window := bytes[start..];
      assert forall i :: 0 <= i < |window| ==> window[i] == bytes[start + i];
      assert FirstEol(window) == |window|;
    }
  }

  // A window that begins inside the first line, or inside its break.
  lemma {:induction false} PiecesFrom(bytes: seq<Byte>, start: nat, n: nat)
    requires n == FirstEol(bytes) < |bytes| && start < NextLine(bytes, n)
    ensures Pieces(bytes[start..]) == [Piece(if start <= n then bytes[start..n] else [], true)] + Pieces(bytes[NextLine(bytes, n)..])
  {
    hide Pieces;
    BreakFrom(bytes, start, n);
    PiecesUnfold(bytes[start..]);
  }

  lemma {:induction false} BreakFrom(bytes: seq<Byte>, start: nat, n: nat)
    requires n == FirstEol(bytes) < |bytes| && start < NextLine(bytes, n)
    ensures var next, window := NextLine(bytes, n), bytes[start..]; var first := FirstEol(window);
      && first < |window| && window[NextLine(window, first)..] == bytes[next..]
      && window[..first] == if start <= n then bytes[start..n] else []
  {
    var next, window := NextLine(bytes, n), bytes[start..];
    var first: nat := if start <= n then n - start else 0;
    assert forall i :: 0 <= i < |window| ==> window[i] == bytes[start + i];
    FirstEolIs(window, first);
    assert NextLine(window, first) == next - start;
  }

  lemma {:induction false} FirstEolIs(bytes: seq<Byte>, n: nat)
    requires n < |bytes| && IsEol(bytes[n]) && forall i :: 0 <= i < n ==> !IsEol(bytes[i])
    ensures FirstEol(bytes) == n
  {
    var m := FirstEol(bytes);
    hide FirstEol;
  }

  // ----- Logs --------------------------------------------------------------------------

  lemma {:induction false} LogComposes(codec: Codec, a: seq<Record>, b: seq<Record>)
    ensures LogOf(codec, a + b) == LogOf(codec, a) + LogOf(codec, b)
    decreases |b|
  {
    if b == [] {
      assert a + b == a;
    } else {
      LogComposes(codec, a, b[..|b| - 1]);
      assert (a + b)[..|a + b| - 1] == a + b[..|b| - 1];
    }
  }

  lemma {:induction false} LogEndsWithLf(codec: Codec, rs: seq<Record>)
    ensures LogOf(codec, rs) == [] || LogOf(codec, rs)[|LogOf(codec, rs)| - 1] == LF
  {
  }

  function LinePieces(codec: Codec, rs: seq<Record>): (ps: seq<Piece>)
    ensures |ps| == |rs| && forall i :: 0 <= i < |rs| ==> ps[i] == Piece(codec.encode(rs[i]), true)
  {
    seq(|rs|, i requires 0 <= i < |rs| => Piece(codec.encode(rs[i]), true))
  }

  lemma {:induction false} PiecesOfLog(codec: Codec, rs: seq<Record>)
    requires Faithful(codec)
    ensures Pieces(LogOf(codec, rs)) == LinePieces(codec, rs)
    decreases |rs|
  {
    if rs != [] {
      var before, last := rs[..|rs| - 1], rs[|rs| - 1];
      PiecesOfLog(codec, before);
      LogEndsWithLf(codec, before);
      assert LogOf(codec, rs) == LogOf(codec, before) + (codec.encode(last) + [LF]);
      assert NoEol(codec.encode(last));
      LinePiecesSnoc(codec, rs);
      hide *;
      PiecesCompose(LogOf(codec, before), codec.encode(last) + [LF]);
      PiecesOfLine(codec.encode(last));
    }
  }

  lemma {:induction false} LinePiecesSnoc(codec: Codec, rs: seq<Record>)
    requires rs != []
    ensures LinePieces(codec, rs) == LinePieces(codec, rs[..|rs| - 1]) + [Piece(codec.encode(rs[|rs| - 1]), true)]
  {
  }

  // The file holds exactly these complete records and then a torn tail, all within
  // the size limit and numbered from one.
  ghost predicate Committed(codec: Codec, bytes: seq<Byte>, rs: seq<Record>, torn: seq<Byte>) {
    && bytes == LogOf(codec, rs) + torn && NoEol(torn) && |torn| < MAX_EVENT_BYTES
    && forall i :: 0 <= i < |rs| ==> rs[i].sequence == i + 1 && |Encoded(codec, rs[i])| <= MAX_EVENT_BYTES
  }

  lemma {:induction false} LastEndIsCommitted(codec: Codec, rs: seq<Record>, torn: seq<Byte>)
    requires NoEol(torn)
    ensures LastEnd(LogOf(codec, rs) + torn) == |LogOf(codec, rs)|
  {
    var log := LogOf(codec, rs);
    var bytes := log + torn;
    LogEndsWithLf(codec, rs);
    forall i | |log| <= i < |bytes| ensures !IsEol(bytes[i]) {
      assert bytes[i] == torn[i - |log|];
    }
    assert log != [] ==> IsEol(bytes[|log| - 1]);
  }

  lemma {:induction false} LogGrows(codec: Codec, rs: seq<Record>, q: nat)
    requires q <= |rs|
    ensures |LogOf(codec, rs[..q])| <= |LogOf(codec, rs)|
    ensures q < |rs| ==> |LogOf(codec, rs[..q])| < |LogOf(codec, rs)|
    ensures LogOf(codec, rs)[..|LogOf(codec, rs[..q])|] == LogOf(codec, rs[..q])
    decreases |rs|
  {
    assert rs == rs[..q] + rs[q..];
    LogComposes(codec, rs[..q], rs[q..]);
    if q < |rs| {
      assert LogOf(codec, rs[q..]) != [];
    }
  }

  // ----- The writer ----------------------------------------------------------------------

  // A missing file and an empty one are the same here.
  class LogFile {
    var bytes: seq<Byte>
  }

  // Unconfirmed: the whole line is in the file, but the append failed all the same.
  datatype Failure = Corrupt | TooLarge | Torn | Unconfirmed

  // The last sequence number a writer saw and the file size it saw it at.
  type Cache = Option<(nat, nat)>

  // The sequence number of the last record, from the cache or a bounded window.
  function SequenceAtSize(codec: Codec, bytes: seq<Byte>, cache: Cache): Result<nat, Failure> {
    var size := |bytes|;
    if size == 0 then Ok(0)
    else if cache.Some? && cache.value.1 == size then Ok(cache.value.0)
    else
      var start := WindowStart(size);
      var pieces := Pieces(bytes[start..]);
      if pieces == [] || (start > 0 && |pieces| < 2) then Err(Corrupt)
      else
        var record := codec.decode(pieces[|pieces| - 1].content);
        if record.None? || record.value.sequence < 1 then Err(Corrupt) else Ok(record.value.sequence)
  }

  datatype Appended = Appended(bytes: seq<Byte>, cache: Cache, outcome: Result<Record, Failure>)

  // One append. survives is how many bytes of its line reach the file before it fails;
  // it succeeds when that is more than there are.
  function AppendTo(codec: Codec, bytes: seq<Byte>, cache: Cache, event: int, survives: nat): Appended {
    var kept := bytes[..LastEnd(bytes)];
    var fresh0 := if kept == bytes then cache else None;
    var last := SequenceAtSize(codec, kept, fresh0);
    if last.Err? then Appended(kept, fresh0, Err(last.error))
    else
      var seen := if kept == [] then fresh0 else Some((last.value, |kept|));
      var record := Record(last.value + 1, event);
      var line := Encoded(codec, record);
      if |line| > MAX_EVENT_BYTES then Appended(kept, seen, Err(TooLarge))
      else if survives <= |line| then Appended(kept + line[..survives], seen, Err(Interrupted(line, survives)))
      else Appended(kept + line, Some((record.sequence, |kept| + |line|)), Ok(record))
  }

  function Interrupted(line: seq<Byte>, survives: nat): Failure {
    if survives < |line| then Torn else Unconfirmed
  }

  class EventWriter {
    const file: LogFile
    const codec: Codec
    var lastSequence: Option<nat>
    var lastSize: Option<nat>

    ghost predicate Valid()
      reads this
    {
      lastSequence.Some? <==> lastSize.Some?
    }

    ghost function CacheOf(): Cache
      reads this
      requires Valid()
    {
      if lastSequence.Some? then Some((lastSequence.value, lastSize.value)) else None
    }

    constructor (file: LogFile, codec: Codec)
      ensures Valid() && CacheOf() == None && this.file == file && this.codec == codec
    {
      this.file, this.codec := file, codec;
      lastSequence, lastSize := None, None;
    }

    // Drops everything after the last line break, reading backwards in chunks.
    method TruncateIncompleteTail() returns (size: nat)
      requires Valid()
      modifies this, file
      ensures Valid() && file.bytes == old(file.bytes)[..LastEnd(old(file.bytes))] && size == |file.bytes|
      ensures CacheOf() == if file.bytes == old(file.bytes) then old(CacheOf()) else None
    {
      var bytes := file.bytes;
      size := |bytes|;
      if size == 0 || IsEol(bytes[size - 1]) {
        return;
      }
      var boundary: nat := size;
      while boundary > 0
        invariant boundary <= size && forall i :: boundary <= i < size ==> !IsEol(bytes[i])
      {
        var chunkStart := if boundary > CHUNK_BYTES then boundary - CHUNK_BYTES else 0;
        var newline := LastEnd(bytes[chunkStart..boundary]);
        forall i | chunkStart + newline <= i < boundary ensures !IsEol(bytes[i]) {
          assert bytes[chunkStart..boundary][i - chunkStart] == bytes[i];
        }
        if newline > 0 {
          assert bytes[chunkStart..boundary][newline - 1] == bytes[chunkStart + newline - 1];
          boundary := chunkStart + newline;
          break;
        }
        boundary := chunkStart;
      }
      LastEndIsUnique(bytes, boundary);
      file.bytes := bytes[..boundary];
      lastSequence, lastSize := None, None;
      return boundary;
    }

    method ReadSequence(size: nat) returns (r: Result<nat, Failure>)
      requires Valid() && size == |file.bytes|
      modifies this
      ensures Valid() && r == SequenceAtSize(codec, file.bytes, old(CacheOf()))
      ensures CacheOf() == if r.Err? || size == 0 then old(CacheOf()) else Some((r.value, size))
    {
      if size == 0 {
        return Ok(0);
      }
      if lastSequence.Some? && lastSize == Some(size) {
        return Ok(lastSequence.value);
      }
      var start := WindowStart(size);
      var pieces := Pieces(file.bytes[start..]);
      if pieces == [] || (start > 0 && |pieces| < 2) {
        return Err(Corrupt);
      }
      var record := codec.decode(pieces[|pieces| - 1].content);
      if record.None? || record.value.sequence < 1 {
        return Err(Corrupt);
      }
      lastSequence, lastSize := Some(record.value.sequence), Some(size);
      return Ok(record.value.sequence);
    }

    method Append(event: int, survives: nat) returns (r: Result<Record, Failure>)
      requires Valid()
      modifies this, file
      ensures Valid()
      ensures var a := AppendTo(codec, old(file.bytes), old(CacheOf()), event, survives);
        file.bytes == a.bytes && CacheOf() == a.cache && r == a.outcome
    {
      hide SequenceAtSize, LastEnd, Encoded;
      var size := TruncateIncompleteTail();
      var sequence := ReadSequence(size);
      if sequence.Err? {
        return Err(sequence.error);
      }
      var record := Record(sequence.value + 1, event);
      var line := Encoded(codec, record);
      if |line| > MAX_EVENT_BYTES {
        return Err(TooLarge);
      }
      if survives <= |line| {
        file.bytes := file.bytes + line[..survives];
        return Err(Interrupted(line, survives));
      }
      file.bytes := file.bytes + line;
      lastSequence, lastSize := Some(record.sequence), Some(size + |line|);
      return Ok(record);
    }
  }

  lemma {:induction false} LastEndIsUnique(bytes: seq<Byte>, n: nat)
    requires n <= |bytes| && (n > 0 ==> IsEol(bytes[n - 1])) && forall i :: n <= i < |bytes| ==> !IsEol(bytes[i])
    ensures LastEnd(bytes) == n
  {
  }

  // ----- Numbering --------------------------------------------------------------------------

  // A cached number was right for the size it was seen at.
  ghost predicate CacheFits(codec: Codec, rs: seq<Record>, cache: Cache) {
    cache.Some? ==>
      && 1 <= cache.value.0 <= |rs|
      && cache.value.1 == |LogOf(codec, rs[..cache.value.0])|
  }

  // The window read from the end of a log starts inside it or at its beginning, and
  // holds the whole last line after a line break.
  lemma {:induction false} WindowEndsWithLastRecord(codec: Codec, rs: seq<Record>, start: nat)
    requires Faithful(codec) && rs != []
    requires start == 0 || start < |LogOf(codec, rs[..|rs| - 1])|
    ensures start <= |LogOf(codec, rs)|
    ensures var ps := Pieces(LogOf(codec, rs)[start..]);
      ps != [] && (start > 0 ==> |ps| >= 2) && ps[|ps| - 1] == Piece(codec.encode(rs[|rs| - 1]), true)
  {
    var before, last := rs[..|rs| - 1], rs[|rs| - 1];
    var prefix := LogOf(codec, before);
    assert LogOf(codec, rs)[start..] == prefix[start..] + Encoded(codec, last);
    LogEndsWithLf(codec, before);
    hide LogOf;
    PiecesCompose(prefix[start..], Encoded(codec, last));
    PiecesOfLine(codec.encode(last));
    if start > 0 {
      NonEmptyPieces(prefix[start..]);
    }
  }

  lemma {:induction false} NonEmptyPieces(bytes: seq<Byte>)
    requires bytes != []
    ensures Pieces(bytes) != []
  {
  }

  lemma {:induction false} CachedSequence(codec: Codec, rs: seq<Record>, cache: Cache)
    requires CacheFits(codec, rs, cache) && cache.Some? && cache.value.1 == |LogOf(codec, rs)|
    ensures cache.value.0 == |rs|
  {
    LogGrows(codec, rs, cache.value.0);
  }

  function WindowStart(size: nat): (start: nat)
    ensures start <= size
  {
    if size > MAX_EVENT_BYTES + 1 then size - MAX_EVENT_BYTES - 1 else 0
  }

  lemma {:induction false} WindowHoldsLastRecord(codec: Codec, rs: seq<Record>)
    requires Faithful(codec) && Committed(codec, LogOf(codec, rs), rs, []) && rs != []
    ensures var log := LogOf(codec, rs); var start := WindowStart(|log|); var ps := Pieces(log[start..]);
      && ps != [] && (start > 0 ==> |ps| >= 2)
      && codec.decode(ps[|ps| - 1].content) == Some(rs[|rs| - 1]) && rs[|rs| - 1].sequence == |rs|
  {
    hide Pieces, LogOf;
    LastLineLength(codec, rs);
    assert |Encoded(codec, rs[|rs| - 1])| <= MAX_EVENT_BYTES;
    WindowEndsWithLastRecord(codec, rs, WindowStart(|LogOf(codec, rs)|));
  }

  // Cached, windowed or neither, the number read is the count a full scan would give.
  lemma {:induction false} SequenceIsCount(codec: Codec, rs: seq<Record>, cache: Cache)
    requires Faithful(codec) && Committed(codec, LogOf(codec, rs), rs, []) && CacheFits(codec, rs, cache)
    ensures SequenceAtSize(codec, LogOf(codec, rs), cache) == Ok(|rs|)
  {
    EmptyLogMeansNoRecords(codec, rs);
    hide Pieces, LogOf, Faithful, Committed, CacheFits;
    if cache.Some? && cache.value.1 == |LogOf(codec, rs)| {
      CachedSequence(codec, rs, cache);
    } else if rs != [] {
      WindowHoldsLastRecord(codec, rs);
    }
  }

  lemma {:induction false} LastLineLength(codec: Codec, rs: seq<Record>)
    requires rs != []
    ensures |LogOf(codec, rs)| == |LogOf(codec, rs[..|rs| - 1])| + |Encoded(codec, rs[|rs| - 1])|
  {
  }

  lemma {:induction false} CacheStaysFit(codec: Codec, rs: seq<Record>, r: Record, cache: Cache)
    requires CacheFits(codec, rs, cache)
    ensures CacheFits(codec, rs + [r], cache)
  {
    if cache.Some? {
      assert (rs + [r])[..cache.value.0] == rs[..cache.value.0];
    }
  }

  // On any file of complete lines and without a cached number, the number is read exactly
  // when the last line is not too long and decodes to a record, and it is that record's.
  lemma {:induction false} SequenceIsLastRecords(codec: Codec, bytes: seq<Byte>, cache: Cache, n: nat)
    requires bytes != [] && !(cache.Some? && cache.value.1 == |bytes|)
    ensures Pieces(bytes) != []
    ensures var pieces := Pieces(bytes); var record := codec.decode(pieces[|pieces| - 1].content);
      && (SequenceAtSize(codec, bytes, cache) == Ok(n) <==>
            && (|bytes| <= MAX_EVENT_BYTES + 1 || |bytes| - LastLine(bytes) <= MAX_EVENT_BYTES)
            && record.Some? && record.value.sequence == n && n >= 1)
      && (SequenceAtSize(codec, bytes, cache).Err? ==> SequenceAtSize(codec, bytes, cache) == Err(Corrupt))
  {
    hide Pieces, LastLine;
    WindowSeesLastLine(bytes, WindowStart(|bytes|));
    assert bytes[0..] == bytes;
  }

  // ----- One append ------------------------------------------------------------------------

  // From any committed file, torn tail or not, an append is wholly present or wholly
  // absent; if present it carries the next number. Success means present; a failure
  // leaves it present only when every byte was written.
  lemma {:induction false} AppendIsAllOrNothing(codec: Codec, bytes: seq<Byte>, rs: seq<Record>, torn: seq<Byte>, cache: Cache,
                             event: int, survives: nat) returns (after: seq<Record>, rest: seq<Byte>)
    requires Faithful(codec) && Committed(codec, bytes, rs, torn) && CacheFits(codec, rs, cache)
    ensures var a := AppendTo(codec, bytes, cache, event, survives); var r := Record(|rs| + 1, event);
      && Committed(codec, a.bytes, after, rest) && CacheFits(codec, after, a.cache)
      && (after == rs || (after == rs + [r] && rest == []))
      && (after == rs + [r] <==> a.outcome.Ok? || a.outcome == Err(Unconfirmed))
      && (a.outcome.Ok? ==> a.outcome == Ok(r))
      && (a.outcome == Err(TooLarge) <==> |Encoded(codec, r)| > MAX_EVENT_BYTES)
      && (a.outcome == Err(Torn) <==> survives < |Encoded(codec, r)| <= MAX_EVENT_BYTES)
      && (a.outcome == Err(Unconfirmed) <==> survives == |Encoded(codec, r)| <= MAX_EVENT_BYTES)
      && a.outcome != Err(Corrupt)
  {
    hide *;
    var r := Record(|rs| + 1, event);
    var line := Encoded(codec, r);
    AppendComputes(codec, bytes, rs, torn, cache, event, survives);
    SeenFits(codec, rs, r);
    assert Interrupted(line, survives) == if survives < |line| then Torn else Unconfirmed by {
      InterruptedMeans(line, survives);
    }
    if |line| > MAX_EVENT_BYTES {
      after, rest := rs, [];
      KeptIsLog(codec, bytes, rs, torn);
    } else if survives < |line| {
      after, rest := rs, line[..survives];
      TornIsCommitted(codec, bytes, rs, torn, r, survives);
    } else {
      after, rest := rs + [r], [];
      FullCacheFits(codec, after);
      LogSnoc(codec, rs, r);
      assert line[..|line|] == line;
      CommittedGrows(codec, bytes, rs, torn, r);
    }
  }

  // On any file at all, an append keeps every complete line, and it changes nothing else
  // before its own line; where it finds the log corrupt it adds nothing.
  lemma {:induction false} AppendKeepsCompleteLines(codec: Codec, bytes: seq<Byte>, cache: Cache, event: int, survives: nat)
    ensures var a := AppendTo(codec, bytes, cache, event, survives); var kept := bytes[..LastEnd(bytes)];
      && kept <= a.bytes
      && (a.outcome == Err(Corrupt) || a.outcome == Err(TooLarge) ==> a.bytes == kept)
      && (a.outcome.Ok? ==> a.bytes == kept + Encoded(codec, a.outcome.value) && a.outcome.value.event == event)
  {
    hide SequenceAtSize, LastEnd, Encoded;
  }

  lemma {:induction false} InterruptedMeans(line: seq<Byte>, survives: nat)
    ensures Interrupted(line, survives) == if survives < |line| then Torn else Unconfirmed
  {
  }

  function Seen(codec: Codec, rs: seq<Record>): Cache {
    if rs == [] then None else Some((|rs|, |LogOf(codec, rs)|))
  }

  // What a writer has seen of a log stays right when the log grows.
  lemma {:induction false} SeenFits(codec: Codec, rs: seq<Record>, r: Record)
    ensures CacheFits(codec, rs, Seen(codec, rs)) && CacheFits(codec, rs + [r], Seen(codec, rs))
  {
    FullCacheFits(codec, rs);
    assert CacheFits(codec, rs, Seen(codec, rs));
    CacheStaysFit(codec, rs, r, Seen(codec, rs));
  }

  lemma {:induction false} TornIsCommitted(codec: Codec, bytes: seq<Byte>, rs: seq<Record>, torn: seq<Byte>, r: Record, survives: nat)
    requires Faithful(codec) && Committed(codec, bytes, rs, torn)
    requires survives < |Encoded(codec, r)| <= MAX_EVENT_BYTES
    ensures Committed(codec, LogOf(codec, rs) + Encoded(codec, r)[..survives], rs, Encoded(codec, r)[..survives])
  {
    TornPrefixHasNoEol(codec, r, survives);
    hide LogOf, Encoded, NoEol;
  }

  // What an append to a committed file leaves.
  lemma {:induction false} AppendComputes(codec: Codec, bytes: seq<Byte>, rs: seq<Record>, torn: seq<Byte>, cache: Cache,
                       event: int, survives: nat)
    requires Faithful(codec) && Committed(codec, bytes, rs, torn) && CacheFits(codec, rs, cache)
    ensures var r := Record(|rs| + 1, event);
      var line := Encoded(codec, r);
      AppendTo(codec, bytes, cache, event, survives) ==
        if |line| > MAX_EVENT_BYTES then Appended(LogOf(codec, rs), Seen(codec, rs), Err(TooLarge))
        else if survives <= |line| then Appended(LogOf(codec, rs) + line[..survives], Seen(codec, rs), Err(Interrupted(line, survives)))
        else Appended(LogOf(codec, rs + [r]), Some((|rs| + 1, |LogOf(codec, rs + [r])|)), Ok(r))
  {
    hide *;
    KeptIsLog(codec, bytes, rs, torn);
    var kept := bytes[..LastEnd(bytes)];
    var fresh0 := if kept == bytes then cache else None;
    assert CacheFits(codec, rs, fresh0) by {
      NoCacheFits(codec, rs);
    }
    SequenceIsCount(codec, rs, fresh0);
    LogSnoc(codec, rs, Record(|rs| + 1, event));
    SeenIsFresh(codec, rs, fresh0);
    AppendFrom(codec, bytes, cache, event, survives, |rs|);
  }

  lemma {:induction false} NoCacheFits(codec: Codec, rs: seq<Record>)
    ensures CacheFits(codec, rs, None)
  {
  }

  // An empty log leaves nothing to have seen.
  lemma {:induction false} SeenIsFresh(codec: Codec, rs: seq<Record>, cache: Cache)
    requires CacheFits(codec, rs, cache)
    ensures Seen(codec, rs) == if LogOf(codec, rs) == [] then cache else Some((|rs|, |LogOf(codec, rs)|))
  {
    EmptyLogMeansNoRecords(codec, rs);
    hide LogOf;
  }

  // An append, given the number of the last record kept.
  lemma {:induction false} AppendFrom(codec: Codec, bytes: seq<Byte>, cache: Cache, event: int, survives: nat, last: nat)
    requires var kept := bytes[..LastEnd(bytes)];
      SequenceAtSize(codec, kept, if kept == bytes then cache else None) == Ok(last)
    ensures var kept, r := bytes[..LastEnd(bytes)], Record(last + 1, event);
      var line, seen := Encoded(codec, r), if kept == [] then (if kept == bytes then cache else None) else Some((last, |kept|));
      AppendTo(codec, bytes, cache, event, survives) ==
        if |line| > MAX_EVENT_BYTES then Appended(kept, seen, Err(TooLarge))
        else if survives <= |line| then Appended(kept + line[..survives], seen, Err(Interrupted(line, survives)))
        else Appended(kept + line, Some((last + 1, |kept| + |line|)), Ok(r))
  {
    hide SequenceAtSize, LastEnd, Encoded, Interrupted;
  }

  lemma {:induction false} CommittedGrows(codec: Codec, bytes: seq<Byte>, rs: seq<Record>, torn: seq<Byte>, r: Record)
    requires Committed(codec, bytes, rs, torn)
    requires r.sequence == |rs| + 1 && |Encoded(codec, r)| <= MAX_EVENT_BYTES
    ensures Committed(codec, LogOf(codec, rs + [r]), rs + [r], [])
  {
    hide LogOf;
    var log := LogOf(codec, rs + [r]);
    assert log + [] == log;
  }

  lemma {:induction false} TornPrefixHasNoEol(codec: Codec, r: Record, survives: nat)
    requires Faithful(codec) && survives < |Encoded(codec, r)|
    ensures NoEol(Encoded(codec, r)[..survives])
  {
    assert forall i :: 0 <= i < survives ==> Encoded(codec, r)[i] == codec.encode(r)[i];
  }

  lemma {:induction false} KeptIsLog(codec: Codec, bytes: seq<Byte>, rs: seq<Record>, torn: seq<Byte>)
    requires Committed(codec, bytes, rs, torn)
    ensures bytes[..LastEnd(bytes)] == LogOf(codec, rs) && Committed(codec, LogOf(codec, rs), rs, [])
  {
    LastEndIsCommitted(codec, rs, torn);
    assert LogOf(codec, rs) + [] == LogOf(codec, rs);
  }

  lemma {:induction false} LogSnoc(codec: Codec, rs: seq<Record>, r: Record)
    ensures LogOf(codec, rs + [r]) == LogOf(codec, rs) + Encoded(codec, r)
  {
    assert (rs + [r])[..|rs|] == rs;
  }

  lemma {:induction false} EmptyLogMeansNoRecords(codec: Codec, rs: seq<Record>)
    ensures LogOf(codec, rs) == [] <==> rs == []
  {
  }

  lemma {:induction false} FullCacheFits(codec: Codec, rs: seq<Record>)
    ensures rs != [] ==> CacheFits(codec, rs, Some((|rs|, |LogOf(codec, rs)|)))
  {
    hide LogOf;
    assert rs[..|rs|] == rs;
  }

  // ----- Every interleaving of writers ---------------------------------------------------------

  // The lock makes each append one step. A writer that dies takes its cache along.
  datatype State = State(bytes: seq<Byte>, writers: map<nat, Cache>)

  datatype Event =
    | Open(writer: nat)
    | Write(writer: nat, event: int, survives: nat)
    | Die(writer: nat)

  function Step(codec: Codec, s: State, e: Event): State {
    match e
    case Open(w) => s.(writers := s.writers[w := None])
    case Die(w) => s.(writers := s.writers - {w})
    case Write(w, event, survives) =>
      if w !in s.writers then s
      else
        var a := AppendTo(codec, s.bytes, s.writers[w], event, survives);
        State(a.bytes, s.writers[w := a.cache])
  }

  function Run(codec: Codec, s: State, events: seq<Event>): State
    decreases |events|
  {
    if events == [] then s else Step(codec, Run(codec, s, events[..|events| - 1]), events[|events| - 1])
  }

  ghost predicate Inv(codec: Codec, s: State, rs: seq<Record>, torn: seq<Byte>) {
    && Committed(codec, s.bytes, rs, torn)
    && forall w :: w in s.writers ==> CacheFits(codec, rs, s.writers[w])
  }

  lemma {:induction false} StepKeepsInv(codec: Codec, s: State, rs: seq<Record>, torn: seq<Byte>, e: Event)
    returns (after: seq<Record>, rest: seq<Byte>)
    requires Faithful(codec) && Inv(codec, s, rs, torn)
    ensures Inv(codec, Step(codec, s, e), after, rest)
    ensures after == if e.Write? && e.writer in s.writers && Lands(codec, |rs| + 1, e.event, e.survives)
                     then rs + [Record(|rs| + 1, e.event)] else rs
  {
    after, rest := rs, torn;
    if e.Write? && e.writer in s.writers {
      after, rest := AppendIsAllOrNothing(codec, s.bytes, rs, torn, s.writers[e.writer], e.event, e.survives);
      assert after == rs + [Record(|rs| + 1, e.event)] <==> Lands(codec, |rs| + 1, e.event, e.survives);
      forall w | w in s.writers ensures CacheFits(codec, after, s.writers[w]) {
        CacheStaysFit(codec, rs, Record(|rs| + 1, e.event), s.writers[w]);
      }
    }
  }

  // However writers interleave, die and tear their writes, the file stays committed
  // and the complete records only grow.
  lemma {:induction false} LogSurvivesEveryRun(codec: Codec, s: State, rs: seq<Record>, torn: seq<Byte>, events: seq<Event>)
    returns (after: seq<Record>, rest: seq<Byte>)
    requires Faithful(codec) && Inv(codec, s, rs, torn)
    ensures Inv(codec, Run(codec, s, events), after, rest)
    ensures rs <= after
    decreases |events|
  {
    if events == [] {
      after, rest := rs, torn;
    } else {
      var before := events[..|events| - 1];
      var mid, midTorn := LogSurvivesEveryRun(codec, s, rs, torn, before);
      after, rest := StepKeepsInv(codec, Run(codec, s, before), mid, midTorn, events[|events| - 1]);
    }
  }

  // ----- Readers ---------------------------------------------------------------------------------

  // Scans the whole log, checking every number; an unterminated last line ends it.
  function Documents(codec: Codec, pieces: seq<Piece>, n: nat): Result<seq<Record>, Failure>
    requires n <= |pieces|
  {
    if n == 0 then Ok([])
    else
      var before, piece := Documents(codec, pieces, n - 1), pieces[n - 1];
      if before.Err? then before
      else if !piece.terminated then (if n == |pieces| then before else Err(Corrupt))
      else
        var record := codec.decode(piece.content);
        if record.None? || record.value.sequence != |before.value| + 1 then Err(Corrupt)
        else Ok(before.value + [record.value])
  }

  function ReadAll(codec: Codec, bytes: seq<Byte>): Result<seq<Record>, Failure> {
    Documents(codec, Pieces(bytes), |Pieces(bytes)|)
  }

  method ReadAllRecords(codec: Codec, file: LogFile) returns (r: Result<seq<Record>, Failure>)
    ensures r == ReadAll(codec, file.bytes)
  {
    var lines := Pieces(file.bytes);
    var documents: seq<Record> := [];
    for index := 0 to |lines|
      invariant Documents(codec, lines, index) == Ok(documents)
    {
      var line := lines[index];
      if !line.terminated {
        if index == |lines| - 1 {
          break;
        }
        ErrorStays(codec, lines, index + 1, |lines|);
        return Err(Corrupt);
      }
      var value := codec.decode(line.content);
      if value.None? || value.value.sequence != |documents| + 1 {
        ErrorStays(codec, lines, index + 1, |lines|);
        return Err(Corrupt);
      }
      documents := documents + [value.value];
    }
    return Ok(documents);
  }

  lemma {:induction false} ErrorStays(codec: Codec, pieces: seq<Piece>, n: nat, m: nat)
    requires n <= m <= |pieces| && Documents(codec, pieces, n) == Err(Corrupt)
    ensures Documents(codec, pieces, m) == Err(Corrupt)
    decreases m
  {
    if n < m {
      ErrorStays(codec, pieces, n, m - 1);
    }
  }

  lemma {:induction false} PiecesOfTorn(torn: seq<Byte>)
    requires NoEol(torn)
    ensures Pieces(torn) == if torn == [] then [] else [Piece(torn, false)]
  {
  }

  lemma {:induction false} DocumentsOfLog(codec: Codec, rs: seq<Record>, more: seq<Piece>, n: nat)
    requires Faithful(codec) && n <= |rs| && forall i :: 0 <= i < |rs| ==> rs[i].sequence == i + 1
    ensures Documents(codec, LinePieces(codec, rs) + more, n) == Ok(rs[..n])
  {
    if n > 0 {
      DocumentsOfLog(codec, rs, more, n - 1);
      assert (LinePieces(codec, rs) + more)[n - 1] == LinePieces(codec, rs)[n - 1];
      assert rs[..n] == rs[..n - 1] + [rs[n - 1]];
    }
  }

  // A full read of a committed file yields exactly its complete records.
  lemma {:induction false} ReadAllIsCommitted(codec: Codec, bytes: seq<Byte>, rs: seq<Record>, torn: seq<Byte>)
    requires Faithful(codec) && Committed(codec, bytes, rs, torn)
    ensures ReadAll(codec, bytes) == Ok(rs)
  {
    LogEndsWithLf(codec, rs);
    hide LogOf, Pieces, Documents, Encoded;
    PiecesCompose(LogOf(codec, rs), torn);
    PiecesOfLog(codec, rs);
    PiecesOfTorn(torn);
    DocumentsOfLog(codec, rs, Pieces(torn), |rs|);
    assert rs[..|rs|] == rs;
    if torn != [] {
      UnterminatedIsSkipped(codec, Pieces(bytes));
    }
  }

  lemma {:induction false} UnterminatedIsSkipped(codec: Codec, pieces: seq<Piece>)
    requires pieces != [] && !pieces[|pieces| - 1].terminated
    ensures Documents(codec, pieces, |pieces|) == Documents(codec, pieces, |pieces| - 1)
  {
  }

  // ----- What a full read accepts -------------------------------------------------------------

  // The complete lines: all of them, or all but an unterminated last one.
  function CompleteCount(pieces: seq<Piece>): (n: nat)
    ensures n <= |pieces|
  {
    if pieces != [] && !pieces[|pieces| - 1].terminated then |pieces| - 1 else |pieces|
  }

  // The records are those of the first n lines, numbered from one.
  ghost predicate Records(codec: Codec, pieces: seq<Piece>, n: nat, rs: seq<Record>)
    requires n <= |pieces|
  {
    |rs| == n && forall i :: 0 <= i < n ==> pieces[i].terminated && codec.decode(pieces[i].content) == Some(rs[i]) && rs[i].sequence == i + 1
  }

  // A full read, of any file whatever, succeeds exactly when every complete line decodes to
  // a record of its own number, and it yields those records.
  lemma {:induction false} ReadAllIsExact(codec: Codec, bytes: seq<Byte>, rs: seq<Record>)
    ensures ReadAll(codec, bytes) == Ok(rs) <==> Records(codec, Pieces(bytes), CompleteCount(Pieces(bytes)), rs)
  {
    var pieces := Pieces(bytes);
    hide Pieces, Documents;
    DocumentsAreExact(codec, pieces, CompleteCount(pieces), rs);
    if CompleteCount(pieces) < |pieces| {
      UnterminatedIsSkipped(codec, pieces);
    }
  }

  lemma {:induction false} DocumentsAreExact(codec: Codec, pieces: seq<Piece>, n: nat, rs: seq<Record>)
    requires n <= CompleteCount(pieces)
    ensures Documents(codec, pieces, n) == Ok(rs) <==> Records(codec, pieces, n, rs)
  {
    if n == 0 {
      assert rs == [] <==> Records(codec, pieces, 0, rs);
    } else {
      DocumentsStep(codec, pieces, n);
      if rs != [] {
        var before := rs[..|rs| - 1];
        DocumentsAreExact(codec, pieces, n - 1, before);
        assert rs == before + [rs[|rs| - 1]];
        if Documents(codec, pieces, n) == Ok(rs) {
          assert Documents(codec, pieces, n - 1) == Ok(before);
        }
        if Records(codec, pieces, n, rs) {
          assert Records(codec, pieces, n - 1, before);
        }
      }
    }
  }

  lemma {:induction false} DocumentsStep(codec: Codec, pieces: seq<Piece>, n: nat)
    requires 0 < n <= CompleteCount(pieces)
    ensures var before, piece := Documents(codec, pieces, n - 1), pieces[n - 1]; var record := codec.decode(piece.content);
      var accepted := before.Ok? && piece.terminated && record.Some? && record.value.sequence == |before.value| + 1;
      && (Documents(codec, pieces, n).Ok? <==> accepted)
      && (accepted ==> Documents(codec, pieces, n) == Ok(before.value + [record.value]))
  {
  }

  // ----- What every run leaves to read -----------------------------------------------------------

  // The writer was opened and has not died since.
  predicate IsOpen(events: seq<Event>, w: nat) {
    events != []
    && match events[|events| - 1]
       case Open(v) => v == w || IsOpen(events[..|events| - 1], w)
       case Die(v) => v != w && IsOpen(events[..|events| - 1], w)
       case Write(_, _, _) => IsOpen(events[..|events| - 1], w)
  }

  // The whole line of the n-th record reaches the file.
  predicate Lands(codec: Codec, n: nat, event: int, survives: nat) {
    |Encoded(codec, Record(n, event))| <= MAX_EVENT_BYTES && |Encoded(codec, Record(n, event))| <= survives
  }

  // The events whose appends landed, in order.
  function Landed(codec: Codec, events: seq<Event>): seq<int> {
    if events == [] then []
    else
      var before, e := Landed(codec, events[..|events| - 1]), events[|events| - 1];
      if e.Write? && IsOpen(events[..|events| - 1], e.writer) && Lands(codec, |before| + 1, e.event, e.survives)
      then before + [e.event] else before
  }

  function Numbered(events: seq<int>): (rs: seq<Record>)
    ensures |rs| == |events| && forall i :: 0 <= i < |rs| ==> rs[i] == Record(i + 1, events[i])
  {
    seq(|events|, i requires 0 <= i < |events| => Record(i + 1, events[i]))
  }

  // From an empty file, any number of writers and any crashes: a full read yields exactly
  // the events whose appends landed, in order, numbered from one.
  lemma {:induction false} EveryRunReadsBack(codec: Codec, events: seq<Event>)
    requires Faithful(codec)
    ensures ReadAll(codec, Run(codec, State([], map[]), events).bytes) == Ok(Numbered(Landed(codec, events)))
  {
    var torn := RunHoldsLanded(codec, events);
    hide Run, Landed;
    ReadAllIsCommitted(codec, Run(codec, State([], map[]), events).bytes, Numbered(Landed(codec, events)), torn);
  }

  lemma {:induction false} RunHoldsLanded(codec: Codec, events: seq<Event>) returns (torn: seq<Byte>)
    requires Faithful(codec)
    ensures Inv(codec, Run(codec, State([], map[]), events), Numbered(Landed(codec, events)), torn)
  {
    if events == [] {
      torn := [];
      assert Numbered([]) == [];
    } else {
      var before, e := events[..|events| - 1], events[|events| - 1];
      var kept := RunHoldsLanded(codec, before);
      var s := Run(codec, State([], map[]), before);
      OpenWriters(codec, before, if e.Write? then e.writer else 0);
      var after, rest := StepKeepsInv(codec, s, Numbered(Landed(codec, before)), kept, e);
      NumberedSnoc(Landed(codec, before), if e.Write? then e.event else 0);
      hide *;
      torn := rest;
      LandedStep(codec, events);
      RunStep(codec, events);
    }
  }

  lemma {:induction false} RunStep(codec: Codec, events: seq<Event>)
    requires events != []
    ensures Run(codec, State([], map[]), events) == Step(codec, Run(codec, State([], map[]), events[..|events| - 1]), events[|events| - 1])
  {
  }

  lemma {:induction false} LandedStep(codec: Codec, events: seq<Event>)
    requires events != []
    ensures var before, e := Landed(codec, events[..|events| - 1]), events[|events| - 1];
      Landed(codec, events) ==
        if e.Write? && IsOpen(events[..|events| - 1], e.writer) && Lands(codec, |before| + 1, e.event, e.survives)
        then before + [e.event] else before
  {
  }

  lemma {:induction false} NumberedSnoc(events: seq<int>, event: int)
    ensures Numbered(events + [event]) == Numbered(events) + [Record(|events| + 1, event)]
  {
  }

  lemma {:induction false} OpenWriters(codec: Codec, events: seq<Event>, w: nat)
    ensures w in Run(codec, State([], map[]), events).writers <==> IsOpen(events, w)
  {
    if events != [] {
      OpenWriters(codec, events[..|events| - 1], w);
      hide AppendTo;
    }
  }

  // ----- The tail -----------------------------------------------------------------------------------

  // The index just after the first LF from position on, or the end.
  function AfterLine(bytes: seq<Byte>, position: nat): (n: nat)
    requires position <= |bytes|
    ensures position <= n <= |bytes|
    decreases |bytes| - position
  {
    if position == |bytes| then position
    else if bytes[position] == LF then position + 1 else AfterLine(bytes, position + 1)
  }

  function LastLf(bytes: seq<Byte>): (n: nat)
    ensures n <= |bytes| && (n > 0 ==> bytes[n - 1] == LF) && forall i :: n <= i < |bytes| ==> bytes[i] != LF
  {
    if bytes == [] || bytes[|bytes| - 1] == LF then |bytes| else LastLf(bytes[..|bytes| - 1])
  }

  function Decodable(codec: Codec, pieces: seq<Piece>): seq<Record> {
    if pieces == [] then []
    else
      var record := codec.decode(pieces[|pieces| - 1].content);
      Decodable(codec, pieces[..|pieces| - 1]) + if record.Some? then [record.value] else []
  }

  // The records in the last megabyte, starting after its first line break.
  function Tail(codec: Codec, bytes: seq<Byte>): seq<Record> {
    var start := if |bytes| > MAX_TAIL_BYTES then AfterLine(bytes, |bytes| - MAX_TAIL_BYTES) else 0;
    var raw := bytes[start..];
    Decodable(codec, Pieces(raw[..LastLf(raw)]))
  }

  method ReadTail(codec: Codec, file: LogFile) returns (documents: seq<Record>)
    ensures documents == Tail(codec, file.bytes)
  {
    hide AfterLine, Tail, Pieces, Decodable, LastLf;
    var size := |file.bytes|;
    var start := 0;
    if size > MAX_TAIL_BYTES {
      start := AfterLine(file.bytes, size - MAX_TAIL_BYTES);
    }
    TailFrom(codec, file.bytes);
    var raw := CompleteLines(file.bytes[start..]);
    documents := DecodeLines(codec, Pieces(raw));
  }

  // Without an unterminated last line.
  method CompleteLines(raw: seq<Byte>) returns (complete: seq<Byte>)
    ensures complete == raw[..LastLf(raw)]
  {
    complete := raw;
    if raw != [] && raw[|raw| - 1] != LF {
      complete := raw[..LastLf(raw)];
    }
  }

  // A line that does not decode is passed over.
  method DecodeLines(codec: Codec, pieces: seq<Piece>) returns (documents: seq<Record>)
    ensures documents == Decodable(codec, pieces)
  {
    documents := [];
    hide Decodable;
    NoneDecodable(codec, pieces);
    for n := 0 to |pieces|
      invariant documents == Decodable(codec, pieces[..n])
    {
      DecodableNext(codec, pieces, n);
      var value := codec.decode(pieces[n].content);
      if value.None? {
        continue;
      }
      documents := documents + [value.value];
    }
    assert pieces[..|pieces|] == pieces;
  }

  lemma {:induction false} NoneDecodable(codec: Codec, pieces: seq<Piece>)
    ensures Decodable(codec, pieces[..0]) == []
  {
  }

  lemma {:induction false} DecodableNext(codec: Codec, pieces: seq<Piece>, n: nat)
    requires n < |pieces|
    ensures var record := codec.decode(pieces[n].content);
      Decodable(codec, pieces[..n + 1]) == Decodable(codec, pieces[..n]) + if record.Some? then [record.value] else []
  {
    assert pieces[..n + 1][..n] == pieces[..n];
  }

  lemma {:induction false} DecodableLines(codec: Codec, rs: seq<Record>)
    requires Faithful(codec)
    ensures Decodable(codec, LinePieces(codec, rs)) == rs
  {
    if rs != [] {
      DecodableLines(codec, rs[..|rs| - 1]);
      assert LinePieces(codec, rs)[..|rs| - 1] == LinePieces(codec, rs[..|rs| - 1]);
      assert rs == rs[..|rs| - 1] + [rs[|rs| - 1]];
    }
  }

  // The tail of any lines: those that decode, in order, and nothing else.
  lemma {:induction false} DecodableIsExact(codec: Codec, pieces: seq<Piece>) returns (at: seq<nat>)
    ensures var rs := Decodable(codec, pieces);
      && |at| == |rs| && (forall k :: 0 <= k < |at| ==> at[k] < |pieces| && codec.decode(pieces[at[k]].content) == Some(rs[k]))
    ensures forall j, k :: 0 <= j < k < |at| ==> at[j] < at[k]
    ensures forall i :: 0 <= i < |pieces| && codec.decode(pieces[i].content).Some? ==> i in at
  {
    if pieces == [] {
      at := [];
    } else {
      var n: nat := |pieces| - 1;
      var before := DecodableIsExact(codec, pieces[..n]);
      assert forall i :: 0 <= i < n ==> pieces[..n][i] == pieces[i];
      at := before + if codec.decode(pieces[n].content).Some? then [n] else [];
    }
  }

  lemma {:induction false} LastLfOfCommitted(codec: Codec, rs: seq<Record>, torn: seq<Byte>)
    requires NoEol(torn)
    ensures LastLf(LogOf(codec, rs) + torn) == |LogOf(codec, rs)|
  {
    var log := LogOf(codec, rs);
    var bytes := log + torn;
    forall i | |log| <= i < |bytes| ensures bytes[i] != LF {
      assert bytes[i] == torn[i - |log|];
    }
    LogEndsWithLf(codec, rs);
    assert log != [] ==> bytes[|log| - 1] == LF;
  }

  // Skipping to the next line inside a log lands just after some record.
  lemma {:induction false} AfterLineIsBoundary(codec: Codec, rs: seq<Record>, bytes: seq<Byte>, k: nat, position: nat)
    returns (j: nat)
    requires Faithful(codec) && k < |rs| && LogOf(codec, rs) <= bytes
    requires |LogOf(codec, rs[..k])| <= position < |LogOf(codec, rs)|
    ensures k < j <= |rs| && position <= |bytes| && AfterLine(bytes, position) == |LogOf(codec, rs[..j])|
    ensures |LogOf(codec, rs[..j - 1])| <= position < |LogOf(codec, rs[..j])|
    decreases |rs| - k
  {
    var a, b := |LogOf(codec, rs[..k])|, |LogOf(codec, rs[..k + 1])|;
    assert rs[..k + 1][..k] == rs[..k];
    LogGrows(codec, rs, k + 1);
    if position >= b {
      j := AfterLineIsBoundary(codec, rs, bytes, k + 1, position);
    } else {
      j := k + 1;
      assert LogOf(codec, rs[..k + 1]) == LogOf(codec, rs[..k]) + Encoded(codec, rs[k]);
      forall i | a <= i < b ensures bytes[i] == Encoded(codec, rs[k])[i - a] {
        assert bytes[i] == LogOf(codec, rs)[i] == LogOf(codec, rs)[..b][i];
      }
      LineRunsTo(bytes, position, b);
    }
  }

  lemma {:induction false} LineRunsTo(bytes: seq<Byte>, position: nat, end: nat)
    requires position < end <= |bytes| && bytes[end - 1] == LF
    requires forall i :: position <= i < end - 1 ==> bytes[i] != LF
    ensures AfterLine(bytes, position) == end
    decreases end - position
  {
    if position < end - 1 {
      LineRunsTo(bytes, position + 1, end);
    }
  }

  lemma {:induction false} TailFromBoundary(codec: Codec, rs: seq<Record>, torn: seq<Byte>, k: nat)
    requires Faithful(codec) && NoEol(torn) && k <= |rs|
    ensures var bytes := LogOf(codec, rs) + torn; var start := |LogOf(codec, rs[..k])|;
      start <= |bytes| && Decodable(codec, Pieces(bytes[start..][..LastLf(bytes[start..])])) == rs[k..]
  {
    var rest := rs[k..];
    assert rs == rs[..k] + rest;
    LogComposes(codec, rs[..k], rest);
    var bytes, start := LogOf(codec, rs) + torn, |LogOf(codec, rs[..k])|;
    assert bytes[start..] == LogOf(codec, rest) + torn;
    LastLfOfCommitted(codec, rest, torn);
    assert (LogOf(codec, rest) + torn)[..|LogOf(codec, rest)|] == LogOf(codec, rest);
    PiecesOfLog(codec, rest);
    DecodableLines(codec, rest);
  }

  lemma {:induction false} TailStart(codec: Codec, bytes: seq<Byte>, rs: seq<Record>, torn: seq<Byte>) returns (k: nat)
    requires Faithful(codec) && Committed(codec, bytes, rs, torn) && |bytes| > MAX_TAIL_BYTES
    ensures k < |rs| && AfterLine(bytes, |bytes| - MAX_TAIL_BYTES) == |LogOf(codec, rs[..k])|
    ensures 0 < k && |LogOf(codec, rs[..k - 1])| <= |bytes| - MAX_TAIL_BYTES < |LogOf(codec, rs[..k])|
  {
    var last := rs[|rs| - 1];
    assert |LogOf(codec, rs)| == |LogOf(codec, rs[..|rs| - 1])| + |Encoded(codec, last)|;
    k := AfterLineIsBoundary(codec, rs, bytes, 0, |bytes| - MAX_TAIL_BYTES);
    assert rs[..|rs|] == rs;
  }

  // With no append in progress, the tail is a suffix of the full log: all of it when
  // the file is small, otherwise the records that begin after the first line break of the
  // last megabyte, and never without the last one.
  lemma {:induction false} TailIsSuffix(codec: Codec, bytes: seq<Byte>, rs: seq<Record>, torn: seq<Byte>) returns (k: nat)
    requires Faithful(codec) && Committed(codec, bytes, rs, torn)
    ensures k <= |rs| && Tail(codec, bytes) == rs[k..] && ReadAll(codec, bytes) == Ok(rs)
    ensures |bytes| <= MAX_TAIL_BYTES ==> k == 0
    ensures rs != [] ==> k < |rs|
    ensures |bytes| > MAX_TAIL_BYTES ==>
      0 < k && |LogOf(codec, rs[..k - 1])| <= |bytes| - MAX_TAIL_BYTES < |LogOf(codec, rs[..k])|
  {
    ReadAllIsCommitted(codec, bytes, rs, torn);
    k := 0;
    assert rs[..0] == [] && rs[0..] == rs && LogOf(codec, []) == [];
    TailFrom(codec, bytes);
    assert bytes == LogOf(codec, rs) + torn && NoEol(torn);
    hide *;
    if |bytes| > MAX_TAIL_BYTES {
      k := TailStart(codec, bytes, rs, torn);
    }
    TailFromBoundary(codec, rs, torn, k);
  }

  lemma {:induction false} TailFrom(codec: Codec, bytes: seq<Byte>)
    ensures var start := if |bytes| > MAX_TAIL_BYTES then AfterLine(bytes, |bytes| - MAX_TAIL_BYTES) else 0;
      Tail(codec, bytes) == Decodable(codec, Pieces(bytes[start..][..LastLf(bytes[start..])]))
  {
  }
}
