/** The few JavaScript string built-ins the PLY loader relies on:
    `String.prototype.split` with a one-character separator,
    `String.prototype.indexOf`, and `parseInt(s, 10)`. */
module JsString {

  /** `None` stands for JavaScript's `undefined` (reading past the end of an
      array) and, for `ParseInt`, for `NaN`. */
  datatype Option<T> = None | Some(value: T)

  /** The inverse of `Split`: the parts glued together with `sep` between them. */
  function Join(parts: seq<string>, sep: char): string
  {
    if parts == [] then ""
    else if |parts| == 1 then parts[0]
    else parts[0] + [sep] + Join(parts[1..], sep)
  }

  /** `s.split(sep)`: the maximal runs of `s` between occurrences of `sep`,
      in order; always at least one part (the empty string splits to `[""]`). */
  function Split(s: string, sep: char): (parts: seq<string>)
    ensures |parts| >= 1
    ensures forall k :: 0 <= k < |parts| ==> sep !in parts[k]
    ensures Join(parts, sep) == s
    decreases |s|
  {
    if s == [] then [""]
    else
      var rest := Split(s[1..], sep);
      if s[0] == sep then
        var parts := [""] + rest;
        assert parts[1..] == rest;
        parts
      else
        var parts := [[s[0]] + rest[0]] + rest[1..];
        assert |rest| > 1 ==> parts[1..] == rest[1..] && Join(rest, sep) == rest[0] + [sep] + Join(rest[1..], sep);
        assert s == [s[0]] + s[1..];
        parts
  }

  /** Splitting text that holds no separator yields the text itself. */
  lemma {:induction false} SplitWithoutSeparator(s: string, sep: char)
    requires sep !in s
    ensures Split(s, sep) == [s]
    decreases |s|
  {
    if s != [] {
      assert sep !in s[1..];
      SplitWithoutSeparator(s[1..], sep);
    }
  }

  /** Splitting distributes over a separator: the parts of `a + sep + b`
      are the parts of `a` followed by the parts of `b`. */
  lemma {:induction false} SplitConcat(a: string, b: string, sep: char)
    ensures Split(a + [sep] + b, sep) == Split(a, sep) + Split(b, sep)
    decreases |a|
  {
    var s := a + [sep] + b;
    if a == [] {
      assert s[1..] == b;
    } else {
      assert s[1..] == a[1..] + [sep] + b;
      SplitConcat(a[1..], b, sep);
    }
  }

  /** `Split` and `Join` are inverse: parts free of `sep` come back unchanged. */
  lemma {:induction false} SplitJoin(parts: seq<string>, sep: char)
    requires |parts| >= 1
    requires forall k :: 0 <= k < |parts| ==> sep !in parts[k]
    ensures Split(Join(parts, sep), sep) == parts
    decreases |parts|
  {
    SplitWithoutSeparator(parts[0], sep);
    if |parts| > 1 {
      SplitJoin(parts[1..], sep);
      SplitConcat(parts[0], Join(parts[1..], sep), sep);
      assert parts == [parts[0]] + parts[1..];
    }
  }

  /** The first part of `s.split(sep)` is the prefix of `s` up to the first
      `sep`, or all of `s` when there is none. */
  lemma {:induction false} SplitHead(s: string, sep: char)
    ensures var p := Split(s, sep)[0];
      p <= s && sep !in p && (|p| == |s| || s[|p|] == sep)
    decreases |s|
  {
    if s != [] && s[0] != sep {
      SplitHead(s[1..], sep);
    }
  }

  /** `sub` occurs in `s` starting at index `i`. */
  predicate OccursAt(s: string, sub: string, i: nat)
  {
    i + |sub| <= |s| && s[i..i + |sub|] == sub
  }

  function IndexFrom(s: string, sub: string, i: nat): (r: int)
    requires i <= |s|
    ensures r == -1 || i <= r <= |s|
    ensures r >= 0 ==> OccursAt(s, sub, r) && forall j :: i <= j < r ==> !OccursAt(s, sub, j)
    ensures r == -1 ==> forall j :: i <= j <= |s| ==> !OccursAt(s, sub, j)
    decreases |s| - i
  {
    if OccursAt(s, sub, i) then i
    else if i == |s| then -1
    else IndexFrom(s, sub, i + 1)
  }

  /** `s.indexOf(sub)`: the first index at which `sub` occurs in `s`, or -1
      when it occurs nowhere. */
  function IndexOf(s: string, sub: string): (r: int)
    ensures r == -1 || 0 <= r <= |s|
    ensures r >= 0 ==> OccursAt(s, sub, r) && forall j :: 0 <= j < r ==> !OccursAt(s, sub, j)
    ensures r < 0 <==> forall j :: 0 <= j <= |s| ==> !OccursAt(s, sub, j)
  {
    IndexFrom(s, sub, 0)
  }

  /** `s.indexOf(p) === 0` exactly when `s` starts with `p`. */
  lemma IndexOfZeroIsPrefix(s: string, p: string)
    ensures IndexOf(s, p) == 0 <==> p <= s
  {
    if p <= s {
      assert s[0..|p|] == p;
      assert OccursAt(s, p, 0);
    }
  }

  predicate IsDigit(c: char)
  {
    '0' <= c <= '9'
  }

  /** The characters ECMAScript's `TrimString` strips: the WhiteSpace code
      points (tab, vertical tab, form feed, space, no-break space, byte order
      mark and the category Zs spaces) and the LineTerminator code points. */
  predicate IsJsSpace(c: char)
  {
    c == '\t' || c == '\n' || c == '\U{B}' || c == '\U{C}' || c == '\r' || c == ' '
    || c == '\U{A0}' || c == '\U{1680}' || ('\U{2000}' <= c <= '\U{200A}')
    || c == '\U{2028}' || c == '\U{2029}' || c == '\U{202F}' || c == '\U{205F}'
    || c == '\U{3000}' || c == '\U{FEFF}'
  }

  /** `s` with its leading white space removed. */
  function TrimStart(s: string): string
  {
    if s != [] && IsJsSpace(s[0]) then TrimStart(s[1..]) else s
  }

  /** `TrimStart` drops exactly the leading run of white space: what it
      keeps is a suffix that does not start with white space, and all it
      drops is white space. */
  lemma {:induction false} TrimStartDropsLeadingSpace(s: string)
    ensures var t := TrimStart(s);
      |t| <= |s| && t == s[|s| - |t|..]
      && (t == [] || !IsJsSpace(t[0]))
      && forall k :: 0 <= k < |s| - |t| ==> IsJsSpace(s[k])
    decreases |s|
  {
    if s != [] && IsJsSpace(s[0]) {
      TrimStartDropsLeadingSpace(s[1..]);
      var t := TrimStart(s);
      assert s[1..][|s| - 1 - |t|..] == s[|s| - |t|..];
      forall k | 0 <= k < |s| - |t| ensures IsJsSpace(s[k]) {
        if k > 0 {
          assert s[k] == s[1..][k - 1];
        }
      }
    }
  }

  /** The longest prefix of `s` made of decimal digits. */
  function DigitPrefix(s: string): (d: string)
    ensures forall k :: 0 <= k < |d| ==> IsDigit(d[k])
  {
    if s != [] && IsDigit(s[0]) then [s[0]] + DigitPrefix(s[1..]) else ""
  }

  /** `DigitPrefix` is a prefix that the next character does not extend. */
  lemma {:induction false} DigitPrefixIsLongest(s: string)
    ensures var d := DigitPrefix(s);
      d <= s && (|d| == |s| || !IsDigit(s[|d|]))
    decreases |s|
  {
    if s != [] && IsDigit(s[0]) {
      DigitPrefixIsLongest(s[1..]);
      var d := DigitPrefix(s);
      assert d == [s[0]] + DigitPrefix(s[1..]);
      assert s == [s[0]] + s[1..];
    }
  }

  /** The number a string of decimal digits denotes. */
  function DigitsValue(d: string): nat
    requires forall k :: 0 <= k < |d| ==> IsDigit(d[k])
  {
    if d == [] then 0
    else
      assert IsDigit(d[|d| - 1]);
      10 * DigitsValue(d[..|d| - 1]) + (d[|d| - 1] as int - '0' as int)
  }

  /** `parseInt(tok, 10)`: skip leading white space, read an optional sign,
      then the longest run of decimal digits; `None` (NaN) when that run is
      empty. `parseInt(undefined)` reads the text "undefined", hence NaN. */
  function ParseInt(tok: Option<string>): Option<int>
  {
    match tok
    case None => None
    case Some(s) =>
      var t := TrimStart(s);
      var negative := t != [] && t[0] == '-';
      var u := if t != [] && (t[0] == '-' || t[0] == '+') then t[1..] else t;
      var d := DigitPrefix(u);
      var v: int := if d == [] then 0 else DigitsValue(d);
      if d == [] then None
      else if negative then Some(-v)
      else Some(v)
  }

  /** The decimal numeral of `n`, without leading zeros. */
  function Decimal(n: nat): (d: string)
    ensures |d| >= 1
    ensures forall k :: 0 <= k < |d| ==> IsDigit(d[k])
    ensures DigitsValue(d) == n
    ensures n > 0 ==> d[0] != '0'
  {
    var last := ['0' + ((n % 10) as char)];
    if n < 10 then last
    else
      var d := Decimal(n / 10) + last;
      assert d[..|d| - 1] == Decimal(n / 10);
      d
  }

  lemma {:induction false} DigitPrefixOfNumeral(d: string, rest: string)
    requires forall k :: 0 <= k < |d| ==> IsDigit(d[k])
    requires rest == [] || !IsDigit(rest[0])
    ensures DigitPrefix(d + rest) == d
    decreases |d|
  {
    if d != [] {
      assert (d + rest)[1..] == d[1..] + rest;
      DigitPrefixOfNumeral(d[1..], rest);
    }
  }

  /** On text that starts with a run of digits denoting `v`, `parseInt`
      skips nothing and reads `v`; after a minus sign it reads `-v`. */
  lemma ParseIntOfDigits(s: string, v: nat)
    requires s != [] && IsDigit(s[0])
    requires DigitsValue(DigitPrefix(s)) == v
    ensures ParseInt(Some(s)) == Some(v)
  {
    assert !IsJsSpace(s[0]);
  }

  lemma ParseIntOfSignedDigits(s: string, v: int)
    requires s != [] && IsDigit(s[0])
    requires DigitsValue(DigitPrefix(s)) == v
    ensures ParseInt(Some(['-'] + s)) == Some(-v)
  {
    var signed := ['-'] + s;
    assert signed[0] == '-';
    assert !IsJsSpace(signed[0]);
    assert TrimStart(signed) == signed;
    assert signed[1..] == s;
  }

  /** `parseInt` reads back a decimal numeral followed by anything that
      does not continue it (a carriage return, a comment). */
  lemma ParseIntOfNumeral(n: nat, rest: string)
    requires rest == [] || !IsDigit(rest[0])
    ensures ParseInt(Some(Decimal(n) + rest)) == Some(n)
  {
    var d := Decimal(n);
    var s := d + rest;
    assert IsDigit(s[0]) && DigitsValue(DigitPrefix(s)) == n by {
      assert s[0] == d[0];
      DigitPrefixOfNumeral(d, rest);
    }
    ParseIntOfDigits(s, n);
  }

  /** The same with a minus sign in front: the negated value is read. */
  lemma ParseIntOfNegativeNumeral(n: nat, rest: string)
    requires rest == [] || !IsDigit(rest[0])
    ensures ParseInt(Some("-" + (Decimal(n) + rest))) == Some(-(n as int))
  {
    var d := Decimal(n);
    var s := d + rest;
    assert IsDigit(s[0]) && DigitsValue(DigitPrefix(s)) == n by {
      assert s[0] == d[0];
      DigitPrefixOfNumeral(d, rest);
    }
    ParseIntOfSignedDigits(s, n);
    assert "-" + (d + rest) == ['-'] + s;
  }
}
