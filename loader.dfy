/** The data module's ASCII PLY loader: the header checks, the header scan
    for the vertex count, and the extraction of the vertex lines into the
    module's `vertexes` store, which is then handed to the view. */
module Loader {
  import opened JsString
  import opened Visualisation

  /** One space-separated field of a vertex line; `None` when the line has
      too few fields and destructuring reads `undefined`. */
  type Token = Option<string>

  /** The `vertexes` store: three parallel columns of coordinate tokens. */
  datatype Columns = Columns(x: seq<Token>, y: seq<Token>, z: seq<Token>)

  /** How a call of the loader ends. The two alerts return quietly; the
      three `Missing...` outcomes are the places where the code reads
      `undefined` from the line array and throws a TypeError. */
  datatype Outcome =
    | Drawn              // the cloud was handed to the view
    | Unsupported        // first line is not `ply`
    | NotAscii           // second line does not mention `ascii`
    | MissingFormatLine  // the file has no second line
    | MissingEndHeader   // no line `end_header` after the first two
    | MissingVertexLine  // the file ends before the declared vertex count

  /** The outcome, and the store afterwards when it was reset (`None`: the
      store is left as it was). */
  datatype Parsed = Parsed(outcome: Outcome, stored: Option<Columns>)

  /** What the header checks and the header scan leave: either a rejection,
      or the index of the first vertex line with the vertex count. */
  datatype Header = Rejected(outcome: Outcome) | Scanned(dataStart: nat, count: Option<int>)

  const PlyMagic: string := "ply"
  const AsciiMarker: string := "ascii"
  const EndHeader: string := "end_header"
  const VertexDeclaration: string := "element vertex"

  function Lines(content: string): seq<string>
  {
    Split(content, '\n')
  }

  /** The index of the first `end_header` line at or after `from`; the
      lemmas below show it is the first one. */
  function HeaderEnd(lines: seq<string>, from: nat): (r: Option<nat>)
    requires from <= |lines|
    ensures r.Some? ==> from <= r.value < |lines| && lines[r.value] == EndHeader
    decreases |lines| - from
  {
    if from == |lines| then None
    else if lines[from] == EndHeader then Some(from)
    else HeaderEnd(lines, from + 1)
  }

  /** No line before the one `HeaderEnd` finds is `end_header`, and when
      it finds none there is none. */
  lemma {:induction false} HeaderEndFirst(lines: seq<string>, from: nat)
    requires from <= |lines|
    ensures var r := HeaderEnd(lines, from);
      (r.Some? ==> forall j :: from <= j < r.value ==> lines[j] != EndHeader)
      && (r.None? ==> forall j :: from <= j < |lines| ==> lines[j] != EndHeader)
    decreases |lines| - from
  {
    if from < |lines| && lines[from] != EndHeader {
      HeaderEndFirst(lines, from + 1);
    }
  }

  /** Conversely, the first `end_header` line at or after `from` is found. */
  lemma {:induction false} HeaderEndAt(lines: seq<string>, from: nat, e: nat)
    requires from <= e < |lines| && lines[e] == EndHeader
    requires forall j :: from <= j < e ==> lines[j] != EndHeader
    ensures HeaderEnd(lines, from) == Some(e)
    decreases e - from
  {
    if from < e {
      HeaderEndAt(lines, from + 1, e);
    }
  }

  /** Without an `end_header` line at or after `from` none is found. */
  lemma {:induction false} HeaderEndNone(lines: seq<string>, from: nat)
    requires from <= |lines|
    requires forall j :: from <= j < |lines| ==> lines[j] != EndHeader
    ensures HeaderEnd(lines, from) == None
    decreases |lines| - from
  {
    if from < |lines| {
      HeaderEndNone(lines, from + 1);
    }
  }

  /** The line declares the vertex count: it starts with `element vertex`.
      The code tests this as `line.indexOf('element vertex') === 0`, which
      `IndexOfZeroIsPrefix` shows to be the same test. */
  predicate IsVertexDeclaration(line: string)
  {
    VertexDeclaration <= line
  }

  /** Field `k` of `line.split(' ')`. */
  function Field(line: string, k: nat): Token
  {
    var parts := Split(line, ' ');
    if k < |parts| then Some(parts[k]) else None
  }

  /** The third field of the last `element vertex` line from line 2 up to
      (not including) line `end`; `None` when there is no such line. */
  function DeclaredField(lines: seq<string>, end: nat): Option<Token>
    requires 2 <= end <= |lines|
    decreases end
  {
    if end == 2 then None
    else if IsVertexDeclaration(lines[end - 1]) then Some(Field(lines[end - 1], 2))
    else DeclaredField(lines, end - 1)
  }

  /** The vertex count the header scan holds once it reaches line `end`:
      each `element vertex` line assigns `parseInt` of its third field, so
      the last one decides; `None` (undefined) when there is none. */
  function DeclaredCount(lines: seq<string>, end: nat): Option<int>
    requires 2 <= end <= |lines|
  {
    var field := DeclaredField(lines, end);
    if field.None? then None else ParseInt(field.value)
  }

  /** How often `for (i = 0; i < vertexCount; i++)` runs: never when the
      count is undefined or NaN (the comparison is false), or not positive. */
  function LoopCount(count: Option<int>): nat
  {
    if count.Some? && count.value > 0 then count.value else 0
  }

  function Column(rows: seq<string>, k: nat): seq<Token>
  {
    seq(|rows|, i requires 0 <= i < |rows| => Field(rows[i], k))
  }

  /** The store filled from `rows`: the first three fields of each. */
  function Extract(rows: seq<string>): Columns
  {
    Columns(Column(rows, 0), Column(rows, 1), Column(rows, 2))
  }

  /** One more vertex line appends its first three fields to the columns. */
  lemma ExtractSnoc(rows: seq<string>, line: string)
    ensures var c := Extract(rows);
      Extract(rows + [line]) == Columns(c.x + [Field(line, 0)], c.y + [Field(line, 1)], c.z + [Field(line, 2)])
  {
    var c := Extract(rows);
    var rows' := rows + [line];
    assert Column(rows', 0) == c.x + [Field(line, 0)];
    assert Column(rows', 1) == c.y + [Field(line, 1)];
    assert Column(rows', 2) == c.z + [Field(line, 2)];
  }

  /** The header part of the loader, as a value. */
  function HeaderOf(lines: seq<string>): (h: Header)
    ensures h.Scanned? ==> 3 <= h.dataStart <= |lines|
    ensures h.Rejected? ==> h.outcome in {Unsupported, MissingFormatLine, NotAscii, MissingEndHeader}
  {
    if |lines| == 0 || lines[0] != PlyMagic then Rejected(Unsupported)
    else if |lines| == 1 then Rejected(MissingFormatLine)
    else if IndexOf(lines[1], AsciiMarker) < 0 then Rejected(NotAscii)
    else match HeaderEnd(lines, 2)
      case None => Rejected(MissingEndHeader)
      case Some(e) => Scanned(e + 1, DeclaredCount(lines, e))
  }

  /** The whole loader on the array of lines, as a value. */
  function ParseLines(lines: seq<string>): Parsed
  {
    match HeaderOf(lines)
    case Rejected(outcome) => Parsed(outcome, None)
    case Scanned(start, count) =>
      var n := LoopCount(count);
      if start + n <= |lines| then Parsed(Drawn, Some(Extract(lines[start..start + n])))
      else Parsed(MissingVertexLine, Some(Extract(lines[start..])))
  }

  function Parse(content: string): Parsed
  {
    ParseLines(Lines(content))
  }

  /** `ParseLines` in terms of the header part. */
  lemma ParseLinesOfHeader(lines: seq<string>)
    ensures var h := HeaderOf(lines);
      ParseLines(lines) ==
        if h.Rejected? then Parsed(h.outcome, None)
        else if h.dataStart + LoopCount(h.count) <= |lines|
        then Parsed(Drawn, Some(Extract(lines[h.dataStart..h.dataStart + LoopCount(h.count)])))
        else Parsed(MissingVertexLine, Some(Extract(lines[h.dataStart..])))
  {
  }

  /** A file passing both checks whose first `end_header` after them is at
      `e` is scanned up to `e`. */
  lemma HeaderOfScanned(lines: seq<string>, e: nat)
    requires 2 <= e < |lines| && lines[0] == PlyMagic && IndexOf(lines[1], AsciiMarker) >= 0
    requires lines[e] == EndHeader && forall j :: 2 <= j < e ==> lines[j] != EndHeader
    ensures HeaderOf(lines) == Scanned(e + 1, DeclaredCount(lines, e))
  {
    HeaderEndAt(lines, 2, e);
  }

  /** The header checks and the scan up to `end_header`, step by step. */
  method ScanHeader(lines: seq<string>) returns (h: Header)
    ensures h == HeaderOf(lines)
  {
    var lineIndex := 0;
    if lineIndex == |lines| || lines[lineIndex] != PlyMagic {
      return Rejected(Unsupported);
    }

    lineIndex := lineIndex + 1;
    if lineIndex == |lines| {
      return Rejected(MissingFormatLine);
    }
    var line := lines[lineIndex];
    if IndexOf(line, AsciiMarker) < 0 {
      return Rejected(NotAscii);
    }

    var end, vertexCount := ScanToEndHeader(lines);
    if end.None? {
      return Rejected(MissingEndHeader);
    }
    HeaderEndFirst(lines, 2);
    HeaderOfScanned(lines, end.value);
    return Scanned(end.value + 1, vertexCount);
  }

  /** The scan of the rest of the header: line by line from line 2 until
      `end_header`, taking the count from each `element vertex` line. */
  method ScanToEndHeader(lines: seq<string>) returns (end: Option<nat>, vertexCount: Option<int>)
    requires 2 <= |lines|
    ensures end == HeaderEnd(lines, 2)
    ensures end.Some? ==> vertexCount == DeclaredCount(lines, end.value)
  {
    var lineIndex := 2;
    vertexCount := None;
    while lineIndex < |lines| && lines[lineIndex] != EndHeader
      invariant 2 <= lineIndex <= |lines|
      invariant forall j :: 2 <= j < lineIndex ==> lines[j] != EndHeader
      invariant vertexCount == DeclaredCount(lines, lineIndex)
      decreases |lines| - lineIndex
    {
      var line := lines[lineIndex];
      IndexOfZeroIsPrefix(line, VertexDeclaration);
      if IndexOf(line, VertexDeclaration) == 0 {
        vertexCount := ParseInt(Field(line, 2));
      }
      lineIndex := lineIndex + 1;
    }
    if lineIndex == |lines| {
      HeaderEndNone(lines, 2);
      return None, vertexCount;
    }
    HeaderEndAt(lines, 2, lineIndex);
    return Some(lineIndex), vertexCount;
  }

  /** JavaScript's implicit conversion of each token to a number, which
      `* 1000` performs, is the parameter `toNumber`. */
  function Numbers(col: seq<Token>, toNumber: Token -> real): seq<real>
  {
    seq(|col|, i requires 0 <= i < |col| => toNumber(col[i]))
  }

  /** The data module: its `vertexes` store. */
  class DataManager {
    var x: seq<Token>
    var y: seq<Token>
    var z: seq<Token>

    /** The three columns always have one entry per stored vertex. */
    ghost predicate Valid()
      reads this
    {
      |x| == |y| == |z|
    }

    function Store(): Columns
      reads this
    {
      Columns(x, y, z)
    }

    constructor ()
      ensures Valid() && Store() == Columns([], [], [])
    {
      x, y, z := [], [], [];
    }

    /** Empty the store, then append the first three fields of each of the
        `n` lines from `start` on; `complete` is false when the lines run out
        first (the code then throws, keeping what it has appended). */
    method ReadVertices(lines: seq<string>, start: nat, n: nat) returns (complete: bool)
      requires start <= |lines|
      modifies this
      ensures Valid()
      ensures complete <==> start + n <= |lines|
      ensures Store() == Extract(lines[start..if complete then start + n else |lines|])
    {
      x, y, z := [], [], [];
      var i := 0;
      while i < n
        invariant 0 <= i <= n && start + i <= |lines|
        invariant Store() == Extract(lines[start..start + i])
      {
        if start + i == |lines| {
          return false;
        }
        var line := lines[start + i];
        x := x + [Field(line, 0)];
        y := y + [Field(line, 1)];
        z := z + [Field(line, 2)];
        assert lines[start..start + i + 1] == lines[start..start + i] + [line];
        ExtractSnoc(lines[start..start + i], line);
        i := i + 1;
      }
      return true;
    }

    /** `parseData`: parse `content`, replace the store with its vertices
        and draw them with `view`. The store is left alone when the file is
        rejected before the reset (both alerts, and the first two TypeErrors);
        a file that ends among the vertex lines leaves the store holding the
        lines read so far and draws nothing. */
    method ParseData(content: string, view: View, toNumber: Token -> real) returns (outcome: Outcome)
      requires Valid()
      modifies this, view
      ensures Valid()
      ensures outcome == Parse(content).outcome
      ensures Parse(content).stored.None? ==> Store() == old(Store())
      ensures Parse(content).stored.Some? ==> Store() == Parse(content).stored.value
      ensures outcome == Drawn ==>
        view.scannedVertices == Scaled(Numbers(x, toNumber), Numbers(y, toNumber), Numbers(z, toNumber), |x|)
        && view.scene == old(view.scene) + [PointCloud(view.scannedVertices, ScannedColor, ScannedSize)]
      ensures outcome != Drawn ==>
        view.scannedVertices == old(view.scannedVertices) && view.scene == old(view.scene)
    {
      var lines := Lines(content);
      var header := ScanHeader(lines);
      ParseLinesOfHeader(lines);
      if header.Rejected? {
        return header.outcome;
      }
      var n := LoopCount(header.count);
      var complete := ReadVertices(lines, header.dataStart, n);
      if !complete {
        return MissingVertexLine;
      }
      view.PrintPointCloud(Numbers(x, toNumber), Numbers(y, toNumber), Numbers(z, toNumber));
      return Drawn;
    }
  }
}
