/** What the PLY loader promises: which files it rejects and how, where the
    vertex count comes from, what the store holds afterwards, and which
    lines cannot influence the result. */
module LoaderProperties {
  import opened JsString
  import opened Loader

  // ---- Rejections ----

  /** A file is rejected as unsupported exactly when its text is not `ply`
      alone and does not start with the line `ply`; the store is kept. */
  lemma RejectsUnlessPly(content: string)
    ensures Parse(content).outcome == Unsupported
      <==> !(content == PlyMagic || PlyMagic + "\n" <= content)
    ensures Parse(content).outcome == Unsupported ==> Parse(content).stored == None
  {
    var first := Lines(content)[0];
    SplitHead(content, '\n');
    if content == PlyMagic {
      assert first == PlyMagic;
    } else if PlyMagic + "\n" <= content {
      assert content[3] == '\n';
      assert |first| == 3;
      assert first == content[..3] == PlyMagic;
    }
    if first == PlyMagic {
      if |first| == |content| {
        assert content == PlyMagic;
      } else {
        assert content[..4] == PlyMagic + "\n";
      }
    }
  }

  /** A file with Windows line endings is rejected as unsupported: its
      first line is `ply` followed by a carriage return. */
  lemma CarriageReturnRejected(rest: string)
    ensures Parse("ply\r\n" + rest) == Parsed(Unsupported, None)
  {
    var content := "ply\r\n" + rest;
    RejectsUnlessPly(content);
    assert content[3] == '\r';
    assert |content| != |PlyMagic|;
  }

  /** The text `ply` on its own has no second line: the read of line 1 is
      `undefined` and throws. No other text fails that way. */
  lemma MissingFormatLineOnlyForBareMagic(content: string)
    ensures Parse(content).outcome == MissingFormatLine <==> content == PlyMagic
  {
    var lines := Lines(content);
    if content == PlyMagic {
      SplitWithoutSeparator(content, '\n');
    }
    if |lines| == 1 {
      assert Join(lines, '\n') == lines[0];
    }
  }

  /** After the first line, the second must contain `ascii` somewhere; any
      line that does is accepted, and the store is kept on rejection. */
  lemma AsciiCheck(lines: seq<string>)
    requires |lines| >= 2 && lines[0] == PlyMagic
    ensures ParseLines(lines).outcome == NotAscii
      <==> forall i :: 0 <= i <= |lines[1]| ==> !OccursAt(lines[1], AsciiMarker, i)
    ensures ParseLines(lines).outcome == NotAscii ==> ParseLines(lines).stored == None
  {
  }

  /** The store is left untouched exactly on the outcomes that happen
      before the reset. */
  lemma StoreKeptExactlyBeforeReset(lines: seq<string>)
    ensures ParseLines(lines).stored == None
      <==> ParseLines(lines).outcome in {Unsupported, MissingFormatLine, NotAscii, MissingEndHeader}
  {
  }

  /** Without a line `end_header` after the first two lines the scan reads
      past the end of the file. */
  lemma MissingEndHeaderIff(lines: seq<string>)
    requires |lines| >= 2 && lines[0] == PlyMagic && IndexOf(lines[1], AsciiMarker) >= 0
    ensures ParseLines(lines).outcome == MissingEndHeader
      <==> forall j :: 2 <= j < |lines| ==> lines[j] != EndHeader
  {
    HeaderEndFirst(lines, 2);
    if forall j :: 2 <= j < |lines| ==> lines[j] != EndHeader {
      HeaderEndNone(lines, 2);
    }
  }

  // ---- The vertex count ----

  /** The last `element vertex` line before `end` decides the count: later
      declarations override earlier ones, other lines are ignored. */
  lemma LastDeclarationWins(lines: seq<string>, k: nat, end: nat)
    requires 2 <= k < end <= |lines|
    requires IsVertexDeclaration(lines[k])
    requires forall j :: k < j < end ==> !IsVertexDeclaration(lines[j])
    ensures DeclaredField(lines, end) == Some(Field(lines[k], 2))
    ensures DeclaredCount(lines, end) == ParseInt(Field(lines[k], 2))
  {
    OtherLinesKeepField(lines, k + 1, end);
  }

  /** Lines that are not declarations leave the count as it was. */
  lemma {:induction false} OtherLinesKeepField(lines: seq<string>, from: nat, end: nat)
    requires 2 <= from <= end <= |lines|
    requires forall j :: from <= j < end ==> !IsVertexDeclaration(lines[j])
    ensures DeclaredField(lines, end) == DeclaredField(lines, from)
    decreases end
  {
    if end > from {
      OtherLinesKeepField(lines, from, end - 1);
    }
  }

  /** A header without `element vertex` line yields a drawn, empty cloud. */
  lemma NoDeclarationNoVertices(lines: seq<string>, e: nat)
    requires |lines| >= 2 && lines[0] == PlyMagic && IndexOf(lines[1], AsciiMarker) >= 0
    requires HeaderEnd(lines, 2) == Some(e)
    requires forall j :: 2 <= j < e ==> !IsVertexDeclaration(lines[j])
    ensures ParseLines(lines) == Parsed(Drawn, Some(Columns([], [], [])))
  {
    OtherLinesKeepField(lines, 2, e);
    UndeclaredCountDrawsNothing(lines, e);
  }

  lemma UndeclaredCountDrawsNothing(lines: seq<string>, e: nat)
    requires |lines| >= 2 && lines[0] == PlyMagic && IndexOf(lines[1], AsciiMarker) >= 0
    requires HeaderEnd(lines, 2) == Some(e)
    requires DeclaredField(lines, e) == None
    ensures ParseLines(lines) == Parsed(Drawn, Some(Columns([], [], [])))
  {
    assert Extract(lines[e + 1..e + 1]) == Columns([], [], []);
  }

  /** The count only depends on the lines before `end`. */
  lemma {:induction false} DeclaredFieldAgree(a: seq<string>, b: seq<string>, end: nat)
    requires 2 <= end <= |a| && end <= |b|
    requires a[..end] == b[..end]
    ensures DeclaredField(a, end) == DeclaredField(b, end)
    decreases end
  {
    if end > 2 {
      assert a[end - 1] == a[..end][end - 1] == b[end - 1];
      assert a[..end - 1] == a[..end][..end - 1];
      assert b[..end - 1] == b[..end][..end - 1];
      DeclaredFieldAgree(a, b, end - 1);
    }
  }

  /** A header line `element vertex <n>` (optionally followed by anything
      that does not continue the number, e.g. a carriage return) declares
      `n` vertices. */
  lemma VertexCountOfDeclaration(n: nat, rest: string)
    requires ' ' !in rest && (rest == [] || !IsDigit(rest[0]))
    ensures var line := VertexDeclaration + " " + Decimal(n) + rest;
      IsVertexDeclaration(line) && ParseInt(Field(line, 2)) == Some(n)
  {
    var token := Decimal(n) + rest;
    assert ' ' !in token by {
      forall k | 0 <= k < |token| ensures token[k] != ' ' {
        if k < |Decimal(n)| {
          assert IsDigit(Decimal(n)[k]);
        } else {
          assert token[k] == rest[k - |Decimal(n)|];
        }
      }
    }
    ThirdField(token);
    assert VertexDeclaration + " " + Decimal(n) + rest == VertexDeclaration + " " + token;
    ParseIntOfNumeral(n, rest);
  }

  /** The third field of `element vertex <token>` is the token. */
  lemma ThirdField(token: string)
    requires ' ' !in token
    ensures var line := VertexDeclaration + " " + token;
      IsVertexDeclaration(line) && Field(line, 2) == Some(token)
  {
    var line := VertexDeclaration + " " + token;
    var parts := ["element", "vertex", token];
    assert parts[1..] == ["vertex", token] && parts[1..][1..] == [token];
    assert Join(["vertex", token], ' ') == "vertex" + " " + token;
    assert Join(parts, ' ') == "element" + " " + ("vertex" + " " + token);
    assert line == Join(parts, ' ');
    SplitJoin(parts, ' ');
    assert line[..|VertexDeclaration|] == VertexDeclaration;
  }

  // ---- The store after a call ----

  /** On success the three columns have exactly the loop count's length,
      and entry `i` holds the first three fields of line `e + 1 + i`, where
      `e` is the `end_header` line: file order, previous contents gone. */
  lemma DrawnShape(lines: seq<string>)
    requires ParseLines(lines).outcome == Drawn
    ensures HeaderEnd(lines, 2).Some?
    ensures var e := HeaderEnd(lines, 2).value;
      var n := LoopCount(DeclaredCount(lines, e));
      var c := ParseLines(lines).stored;
      e + 1 + n <= |lines| && c.Some?
      && |c.value.x| == n && |c.value.y| == n && |c.value.z| == n
      && forall i :: 0 <= i < n ==>
           c.value.x[i] == Field(lines[e + 1 + i], 0)
           && c.value.y[i] == Field(lines[e + 1 + i], 1)
           && c.value.z[i] == Field(lines[e + 1 + i], 2)
  {
    var e := HeaderEnd(lines, 2).value;
    var n := LoopCount(DeclaredCount(lines, e));
    assert ParseLines(lines).stored == Some(Extract(lines[e + 1..e + 1 + n]));
    ExtractAt(lines, e + 1, n);
  }

  /** Entry `i` of the columns read from `n` lines at `start` comes from
      line `start + i`. */
  lemma ExtractAt(lines: seq<string>, start: nat, n: nat)
    requires start + n <= |lines|
    ensures var c := Extract(lines[start..start + n]);
      |c.x| == n && |c.y| == n && |c.z| == n
      && forall i :: 0 <= i < n ==>
           c.x[i] == Field(lines[start + i], 0)
           && c.y[i] == Field(lines[start + i], 1)
           && c.z[i] == Field(lines[start + i], 2)
  {
    var rows := lines[start..start + n];
    forall i | 0 <= i < n
      ensures rows[i] == lines[start + i]
    {
    }
  }

  /** When the file ends among the vertex lines the store has been reset
      and holds every line after `end_header`: fewer than declared. */
  lemma TruncatedKeepsReadLines(lines: seq<string>)
    requires ParseLines(lines).outcome == MissingVertexLine
    ensures HeaderEnd(lines, 2).Some?
    ensures var e := HeaderEnd(lines, 2).value;
      var c := ParseLines(lines).stored;
      c.Some? && c.value == Extract(lines[e + 1..])
      && |c.value.x| < LoopCount(DeclaredCount(lines, e))
  {
  }

  /** The fields of a vertex line are its space-separated tokens, and
      `None` past the last one. */
  lemma VertexLineFields(tokens: seq<string>, k: nat)
    requires |tokens| >= 1
    requires forall t :: 0 <= t < |tokens| ==> ' ' !in tokens[t]
    ensures Field(Join(tokens, ' '), k) == if k < |tokens| then Some(tokens[k]) else None
  {
    SplitJoin(tokens, ' ');
  }

  // ---- Lines that do not matter ----

  /** Lines after the vertex lines (faces, further elements) change nothing. */
  lemma TrailingLinesIgnored(lines: seq<string>, extra: seq<string>)
    requires ParseLines(lines).outcome == Drawn
    ensures ParseLines(lines + extra) == ParseLines(lines)
  {
    var all := lines + extra;
    var e := HeaderEnd(lines, 2).value;
    assert all[0] == lines[0] && all[1] == lines[1];
    assert HeaderEnd(all, 2) == Some(e) by {
      HeaderEndFirst(lines, 2);
      assert forall j :: 2 <= j < e ==> all[j] == lines[j];
      HeaderEndAt(all, 2, e);
    }
    assert all[..e] == lines[..e];
    DeclaredFieldAgree(all, lines, e);
    var n := LoopCount(DeclaredCount(lines, e));
    assert all[e + 1..e + 1 + n] == lines[e + 1..e + 1 + n];
  }

  /** The same for the text: appending lines after a file that loads
      changes nothing. */
  lemma TrailingContentIgnored(content: string, more: string)
    ensures Parse(content).outcome == Drawn ==> Parse(content + "\n" + more) == Parse(content)
  {
    if Parse(content).outcome == Drawn {
      SplitConcat(content, more, '\n');
      assert content + "\n" + more == content + ['\n'] + more;
      TrailingLinesIgnored(Lines(content), Lines(more));
    }
  }

  /** Inserting a header line that neither declares the vertex count nor
      ends the header changes nothing. */
  lemma HeaderLineIgnored(lines: seq<string>, k: nat, line: string)
    requires 2 <= k <= |lines|
    requires line != EndHeader && !IsVertexDeclaration(line)
    requires HeaderEnd(lines, 2).None? || k <= HeaderEnd(lines, 2).value
    ensures ParseLines(lines[..k] + [line] + lines[k..]) == ParseLines(lines)
  {
    if lines[0] == PlyMagic && IndexOf(lines[1], AsciiMarker) >= 0 && HeaderEnd(lines, 2).Some? {
      HeaderLineIgnoredScanned(lines, k, line, HeaderEnd(lines, 2).value);
    } else {
      HeaderLineIgnoredRejected(lines, k, line);
    }
  }

  lemma HeaderLineIgnoredRejected(lines: seq<string>, k: nat, line: string)
    requires 2 <= k <= |lines|
    requires line != EndHeader
    requires HeaderEnd(lines, 2).None?
      || lines[0] != PlyMagic || IndexOf(lines[1], AsciiMarker) < 0
    ensures ParseLines(lines[..k] + [line] + lines[k..]) == ParseLines(lines)
  {
    var ins := lines[..k] + [line] + lines[k..];
    assert ins[0] == lines[0] && ins[1] == lines[1];
    if HeaderEnd(lines, 2).None? {
      HeaderEndInsert(lines, k, line, 2);
    }
  }

  lemma HeaderLineIgnoredScanned(lines: seq<string>, k: nat, line: string, e: nat)
    requires 2 <= k <= e < |lines|
    requires line != EndHeader && !IsVertexDeclaration(line)
    requires lines[0] == PlyMagic && IndexOf(lines[1], AsciiMarker) >= 0
    requires HeaderEnd(lines, 2) == Some(e)
    ensures ParseLines(lines[..k] + [line] + lines[k..]) == ParseLines(lines)
  {
    HeaderEndInsert(lines, k, line, 2);
    HeaderOfInsertScanned(lines, k, line, e);
    HeaderEndFirst(lines, 2);
    HeaderOfScanned(lines, e);
    SuffixAfterInsert(lines, k, line, e + 1);
    ShiftedDataSameResult(lines, lines[..k] + [line] + lines[k..], e + 1, DeclaredCount(lines, e));
  }

  lemma SuffixAfterInsert(lines: seq<string>, k: nat, line: string, start: nat)
    requires k < start <= |lines|
    ensures (lines[..k] + [line] + lines[k..])[start + 1..] == lines[start..]
  {
    var ins := lines[..k] + [line] + lines[k..];
    assert ins[k + 1..] == lines[k..];
    assert ins[start + 1..] == ins[k + 1..][start - k..];
  }

  /** Two files whose headers agree on the count and whose data lines are
      the same load the same. */
  lemma ShiftedDataSameResult(a: seq<string>, b: seq<string>, start: nat, count: Option<int>)
    requires HeaderOf(a) == Scanned(start, count) && HeaderOf(b) == Scanned(start + 1, count)
    requires b[start + 1..] == a[start..]
    ensures ParseLines(b) == ParseLines(a)
  {
    var n := LoopCount(count);
    if start + n <= |a| {
      assert b[start + 1..start + 1 + n] == b[start + 1..][..n] == a[start..][..n] == a[start..start + n];
    }
  }

  lemma HeaderOfInsertScanned(lines: seq<string>, k: nat, line: string, e: nat)
    requires 2 <= k <= e < |lines|
    requires lines[0] == PlyMagic && IndexOf(lines[1], AsciiMarker) >= 0
    requires !IsVertexDeclaration(line)
    requires HeaderEnd(lines[..k] + [line] + lines[k..], 2) == Some(e + 1)
    ensures HeaderOf(lines[..k] + [line] + lines[k..]) == Scanned(e + 2, DeclaredCount(lines, e))
  {
    var ins := lines[..k] + [line] + lines[k..];
    assert ins[0] == lines[0] && ins[1] == lines[1];
    DeclaredFieldInsert(lines, k, line, e);
  }

  /** The inserted line shifts the first `end_header` by one, or there is
      still none. */
  lemma {:induction false} HeaderEndInsert(lines: seq<string>, k: nat, line: string, from: nat)
    requires from <= k <= |lines|
    requires line != EndHeader
    requires HeaderEnd(lines, from).None? || k <= HeaderEnd(lines, from).value
    ensures var ins := lines[..k] + [line] + lines[k..];
      HeaderEnd(ins, from) == if HeaderEnd(lines, from).None? then None else Some(HeaderEnd(lines, from).value + 1)
    decreases k - from
  {
    var ins := lines[..k] + [line] + lines[k..];
    if from == k {
      assert ins[k] == line;
      assert ins[k + 1..] == lines[k..];
      HeaderEndSuffix(ins, lines, k + 1, k);
    } else {
      assert ins[from] == lines[from];
      HeaderEndInsert(lines, k, line, from + 1);
    }
  }

  /** `HeaderEnd` only looks at the lines from `i` on: on equal suffixes it
      finds the same line, shifted by the offset. */
  lemma {:induction false} HeaderEndSuffix(a: seq<string>, b: seq<string>, i: nat, j: nat)
    requires i <= |a| && j <= |b| && a[i..] == b[j..]
    ensures HeaderEnd(a, i) == if HeaderEnd(b, j).None? then None else Some(HeaderEnd(b, j).value - j + i)
    decreases |a| - i
  {
    assert |a| - i == |b| - j;
    if i < |a| {
      assert a[i] == a[i..][0] == b[j..][0] == b[j];
      assert a[i + 1..] == a[i..][1..] == b[j..][1..] == b[j + 1..];
      HeaderEndSuffix(a, b, i + 1, j + 1);
    }
  }

  lemma {:induction false} DeclaredFieldInsert(lines: seq<string>, k: nat, line: string, end: nat)
    requires 2 <= k <= end <= |lines|
    requires !IsVertexDeclaration(line)
    ensures DeclaredField(lines[..k] + [line] + lines[k..], end + 1) == DeclaredField(lines, end)
    decreases end
  {
    var ins := lines[..k] + [line] + lines[k..];
    if end == k {
      assert ins[k] == line;
      assert ins[..k] == lines[..k];
      DeclaredFieldAgree(ins, lines, k);
    } else {
      assert ins[end] == lines[end - 1];
      DeclaredFieldInsert(lines, k, line, end - 1);
    }
  }

  // ---- A well-formed file ----

  /** The header of a well-formed file, without its `end_header` line: the
      magic line, an ASCII format line, the declaration of `n` vertices and
      further header lines. */
  function WellFormedHeader(n: nat, properties: seq<string>): seq<string>
  {
    [PlyMagic, "format ascii 1.0", VertexDeclaration + " " + Decimal(n)] + properties
  }

  predicate PlainHeaderLines(properties: seq<string>)
  {
    forall j :: 0 <= j < |properties| ==>
      properties[j] != EndHeader && !IsVertexDeclaration(properties[j])
  }

  /** A file with the magic line, an ASCII format line, one declaration
      of `n` vertices among other header lines, `end_header` and `n` vertex
      lines loads exactly those `n` lines, whatever follows them. */
  lemma WellFormedFileLoads(n: nat, properties: seq<string>, rows: seq<string>, trailing: seq<string>)
    requires |rows| == n && PlainHeaderLines(properties)
    ensures ParseLines(WellFormedHeader(n, properties) + [EndHeader] + rows + trailing)
      == Parsed(Drawn, Some(Extract(rows)))
  {
    var header := WellFormedHeader(n, properties);
    var e := |header|;
    var lines := header + [EndHeader] + rows + trailing;
    assert lines == header + [EndHeader] + (rows + trailing);
    WellFormedHeaderScanned(n, properties, rows + trailing);
    assert lines[e + 1..e + 1 + n] == rows;
  }

  /** The header of a well-formed file passes both checks and declares `n`
      vertices, the first of which follows its `end_header` line. */
  lemma WellFormedHeaderScanned(n: nat, properties: seq<string>, tail: seq<string>)
    requires PlainHeaderLines(properties)
    ensures var header := WellFormedHeader(n, properties);
      HeaderOf(header + [EndHeader] + tail) == Scanned(|header| + 1, Some(n))
  {
    var header := WellFormedHeader(n, properties);
    var e := |header|;
    var lines := header + [EndHeader] + tail;
    assert lines[0] == PlyMagic;
    assert OccursAt(lines[1], AsciiMarker, 7);
    assert lines[e] == EndHeader;
    assert forall j :: 3 <= j < e ==> lines[j] == properties[j - 3];
    assert lines[2] != EndHeader by { assert |lines[2]| != |EndHeader|; }
    HeaderOfScanned(lines, e);
    WellFormedCount(n, properties, lines);
  }

  lemma WellFormedCount(n: nat, properties: seq<string>, lines: seq<string>)
    requires PlainHeaderLines(properties)
    requires |WellFormedHeader(n, properties)| <= |lines|
    requires lines[..|WellFormedHeader(n, properties)|] == WellFormedHeader(n, properties)
    ensures DeclaredCount(lines, |WellFormedHeader(n, properties)|) == Some(n)
  {
    var header := WellFormedHeader(n, properties);
    var e := |header|;
    assert lines[2] == header[2] == VertexDeclaration + " " + Decimal(n) + "";
    VertexCountOfDeclaration(n, "");
    assert forall j :: 3 <= j < e ==> lines[j] == header[j] == properties[j - 3];
    LastDeclarationWins(lines, 2, e);
  }
}
