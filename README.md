# PLY point-cloud loader

This project models the part of the point-cloud viewer that loads a file: the
data module's ASCII PLY loader `parseData` and the scaling loop of the view's
`printPointCloud`. Given the text of a file, the loader works as follows:

- it splits the text into lines;
- it checks that the first line is `ply` and that the second mentions `ascii`;
- it scans the header up to `end_header`, taking the vertex count from the
  `element vertex` lines;
- it empties its `vertexes` store;
- it appends the first three space-separated fields of each of the next
  `vertexCount` lines;
- it hands the store to the view. The view multiplies every coordinate by
  1000 and adds one point set to the scene.

The model has four modules.

- `JsString`: the JavaScript built-ins the loader depends on, written out:
  - `split` with a one-character separator;
  - `indexOf`;
  - `parseInt(s, 10)`, with leading white space, an optional sign, the longest
    run of decimal digits, and `NaN` when there are no digits.

  `undefined` (reading past the end of an array) and `NaN` are `None`.
- `Visualisation`: the view as a class `View`. Its method `PrintPointCloud`
  builds the geometry in a loop, as the source does.
- `Loader`: the loader in two forms.
  - As a value: `HeaderOf`, `ParseLines` and `Parse` give each input its
    outcome and the store afterwards.
  - As the imperative code: the class `DataManager` with the three columns
    `x`, `y` and `z`. Its method `ParseData` runs the header checks, the
    header `while` loop (`ScanToEndHeader`) and the vertex `for` loop
    (`ReadVertices`), and is proved to agree with `Parse`.
- `LoaderProperties`: lemmas about `ParseLines` and `Parse`.

The loader ends in one of six outcomes:

- `Drawn`: the cloud was handed to the view.
- Two alerts:
  - `Unsupported`: the first line is not `ply`.
  - `NotAscii`: the second line does not contain `ascii`.
- Three `TypeError`s, which are places where the code reads `undefined` from
  the line array and calls a method on it:
  - `MissingFormatLine`: the file has no second line (js/app.js:93).
  - `MissingEndHeader`: no `end_header` line (js/app.js:101-102).
  - `MissingVertexLine`: the file ends before `vertexCount` vertex lines
    (js/app.js:118).

`Unsupported`, `NotAscii`, `MissingFormatLine` and `MissingEndHeader` happen
before the reset at js/app.js:112-114, so the store keeps its old contents.
`Drawn` comes after the reset, with the store refilled. `MissingVertexLine`
also happens after the reset: the store then holds the vertex lines read
before the throw. The model follows the code on this.

In these details the model follows the code rather than the PLY format as
usually described:
- Vertex fields are separated by single spaces (`split(' ')`), not by any
  white space. Two spaces in a row give an empty field.
- Only PLY is read. There is no OFF branch in js/app.js.
- The first line must be exactly `ply`. A file with Windows line endings
  (`ply\r`) is rejected as unsupported (`CarriageReturnRejected`).
- The count is `parseInt` of the third field of the last `element vertex`
  line. A negative, missing or non-numeric count stores no vertex and still
  draws an empty cloud.

## Model

| member | source | states |
|---|---|---|
| JsString.Split | js/app.js:78 | `split` returns at least one part. No part contains the separator. The parts joined with the separator give back the text. |
| JsString.SplitJoin | js/app.js:78 | Splitting the join of separator-free parts gives back exactly those parts, so `split` inverts joining. |
| JsString.SplitConcat | js/app.js:78 | The parts of `a + sep + b` are the parts of `a` followed by the parts of `b`. |
| JsString.SplitWithoutSeparator | js/app.js:78 | Text without the separator splits into itself alone. |
| JsString.SplitHead | js/app.js:84 | The first line is the prefix of the text up to the first newline, or the whole text when there is none. |
| JsString.IndexOf | js/app.js:93 | `indexOf` is -1 exactly when the substring occurs nowhere. Otherwise it is an occurrence with no earlier one. |
| JsString.IndexFrom | js/app.js:93 | The search from index `i` returns the first occurrence at or after `i`, or -1 when there is none from `i` on. |
| JsString.IndexOfZeroIsPrefix | js/app.js:102 | `indexOf(p) === 0` holds exactly when the line starts with `p`. |
| JsString.TrimStart | js/app.js:103 | No contract of its own. `TrimStartDropsLeadingSpace` states that it removes exactly the leading run of white space. |
| JsString.TrimStartDropsLeadingSpace | js/app.js:103 | `parseInt` skips exactly the leading run of ECMAScript white space. |
| JsString.DigitPrefix | js/app.js:103 | The digits read are all decimal digits. `DigitPrefixIsLongest` states that they are the longest such prefix. |
| JsString.DigitPrefixIsLongest | js/app.js:103 | The digits `parseInt` reads are the longest decimal prefix. |
| JsString.Decimal | js/app.js:103 | A decimal numeral is a non-empty run of digits that denotes its number, with no leading zero unless the number is 0. |
| JsString.ParseInt | js/app.js:103 | No contract of its own. `TrimStartDropsLeadingSpace` and `DigitPrefixIsLongest` state what it skips and reads. `ParseIntOfNumeral` and `ParseIntOfNegativeNumeral` state that it reads back a written number. |
| JsString.ParseIntOfNumeral | js/app.js:103 | `parseInt` reads back `n` from its numeral followed by anything that is not a digit. |
| JsString.ParseIntOfNegativeNumeral | js/app.js:103 | `parseInt` reads `-n` from the same text after a minus sign. |
| Visualisation.Scaled | js/app.js:37-45 | The geometry built from `n` indices has exactly `n` vertices. |
| Visualisation.ScaledAt | js/app.js:38-44 | Vertex `i` is the `i`-th input of each array times 1000, in input order. |
| Visualisation.View.PrintPointCloud | js/app.js:34-56 | The loop leaves one scaled vertex per index of `x`. The scene grows by exactly one point set over that geometry, with the scanned colour and size. |
| Loader.Lines | js/app.js:78 | No contract of its own. It is `Split` on the newline, whose contract applies, and `SplitHead` gives its first line. |
| Loader.IsVertexDeclaration | js/app.js:102 | No contract of its own. It is the starts-with test, and `IndexOfZeroIsPrefix` states that this is the code's `indexOf(...) === 0`. |
| Loader.Field | js/app.js:118 | No contract of its own. `VertexLineFields` states that field `k` is the `k`-th space-separated token, or `undefined` past the last one. |
| Loader.HeaderEnd | js/app.js:101-108 | The line the header scan stops at lies within the file and is `end_header`. |
| Loader.HeaderEndFirst | js/app.js:101 | No line before that one is `end_header`. When the scan finds none, there is none. |
| Loader.HeaderEndAt | js/app.js:101-108 | The first `end_header` line is the one the scan stops at. |
| Loader.HeaderEndNone | js/app.js:101-102 | Without an `end_header` line the scan runs off the end. |
| Loader.DeclaredField | js/app.js:101-108 | No contract of its own. The third field of the last declaration before a line: see `LastDeclarationWins`, `OtherLinesKeepField`, `DeclaredFieldAgree` and `DeclaredFieldInsert`. |
| Loader.DeclaredCount | js/app.js:101-108 | No contract of its own. `LastDeclarationWins` and `VertexCountOfDeclaration` state the count. `ScanToEndHeader` is proved to hold it at every step of the `while` loop. |
| Loader.LoopCount | js/app.js:117 | No contract of its own. It is the number of iterations of the `for` loop: the count when positive, otherwise none, since comparing with `undefined` or `NaN` is false. See `NoDeclarationNoVertices` and `DrawnShape`. |
| Loader.HeaderOf | js/app.js:81-109 | A rejection is one of the four outcomes that come before the reset. A scanned header puts the data start after line 2 and within the file. |
| Loader.HeaderOfScanned | js/app.js:98-109 | A file that passes both checks is scanned up to its first `end_header`. Its data starts on the next line. |
| Loader.Column | js/app.js:118-121 | No contract of its own. `ExtractAt` states that entry `i` is field `k` of row `i`. |
| Loader.Extract | js/app.js:117-121 | No contract of its own. `ExtractSnoc` and `ExtractAt` state that each row appends its first three fields, in order. |
| Loader.ExtractSnoc | js/app.js:118-121 | One more vertex line appends its first, second and third field to `x`, `y` and `z`. |
| Loader.ParseLines | js/app.js:77-126 | No contract of its own. See `StoreKeptExactlyBeforeReset`, `DrawnShape`, `TruncatedKeepsReadLines`, `LastDeclarationWins`, `TrailingLinesIgnored`, `HeaderLineIgnored` and `WellFormedFileLoads`. |
| Loader.Parse | js/app.js:77-126 | No contract of its own. See `RejectsUnlessPly`, `MissingFormatLineOnlyForBareMagic`, `AsciiCheck` and `TrailingContentIgnored`. `DataManager.ParseData` is proved to agree with it. |
| Loader.ScanHeader | js/app.js:81-109 | The checks and the header loop, step by step, give exactly `HeaderOf`. |
| Loader.ScanToEndHeader | js/app.js:98-108 | The `while` loop stops at the first `end_header`. It ends holding `parseInt` of the last declaration before that line, or `undefined`. |
| Loader.Numbers | js/app.js:40-42 | No contract of its own. It converts each token with the parameter `toNumber`, and `ParseData` hands the converted columns to `PrintPointCloud`. |
| Loader.DataManager.constructor | js/app.js:68-71 | The store starts with three empty columns. |
| Loader.DataManager.ReadVertices | js/app.js:111-122 | The reset and the `for` loop leave the columns holding the fields of the `n` lines after the header. The loop fails exactly when fewer than `n` lines remain, and the columns then hold the lines that remain. |
| Loader.DataManager.ParseData | js/app.js:77-126 | The outcome is that of `Parse`. The store is untouched on every outcome before the reset and replaced otherwise. On success the view shows the scaled store and the scene grows by one. Otherwise the view is unchanged. |
| LoaderProperties.RejectsUnlessPly | js/app.js:78-88 | The file is unsupported exactly when its text is neither `ply` nor starts with the line `ply`. The store is then kept. |
| LoaderProperties.CarriageReturnRejected | js/app.js:78-88 | A file whose first line ends in a carriage return is unsupported. |
| LoaderProperties.MissingFormatLineOnlyForBareMagic | js/app.js:91-93 | The read of a missing second line throws exactly for the text `ply` alone. |
| LoaderProperties.AsciiCheck | js/app.js:91-96 | After `ply`, the file is rejected as not ASCII exactly when `ascii` occurs nowhere in line 1. Any line containing it is accepted. The store is kept. |
| LoaderProperties.StoreKeptExactlyBeforeReset | js/app.js:84-114 | The store is left alone exactly on `Unsupported`, `MissingFormatLine`, `NotAscii` and `MissingEndHeader`. |
| LoaderProperties.MissingEndHeaderIff | js/app.js:98-108 | Once both checks pass, the scan throws exactly when no line from line 2 on is `end_header`. |
| LoaderProperties.LastDeclarationWins | js/app.js:101-108 | The count is `parseInt` of the third field of the last `element vertex` line before `end_header`. Later declarations override earlier ones. |
| LoaderProperties.OtherLinesKeepField | js/app.js:101-108 | Header lines that are not declarations leave the count as it was. |
| LoaderProperties.DeclaredFieldAgree | js/app.js:101-108 | The count depends only on the lines scanned so far. |
| LoaderProperties.VertexCountOfDeclaration | js/app.js:102-103 | A line `element vertex <n>` is a declaration, and it sets the count to `n`. |
| LoaderProperties.NoDeclarationNoVertices | js/app.js:79-117 | Without an `element vertex` line the count stays undefined. The loop does not run, and an empty cloud is drawn. |
| LoaderProperties.DrawnShape | js/app.js:109-122 | On success `x`, `y` and `z` each have exactly the loop count's length. `x[i]`, `y[i]`, `z[i]` are the first three fields of line `end_header + 1 + i`, with nothing kept from before. |
| LoaderProperties.ExtractAt | js/app.js:117-121 | Entry `i` of each column comes from data line `i`, in file order. |
| LoaderProperties.TruncatedKeepsReadLines | js/app.js:111-118 | When the file ends among the vertex lines, the store has been reset. It holds every line after `end_header`, fewer than the count. |
| LoaderProperties.VertexLineFields | js/app.js:118 | The fields of a vertex line are its space-separated tokens. A field past the last token is `undefined`. |
| LoaderProperties.TrailingLinesIgnored | js/app.js:117-122 | Lines after the vertex lines, such as faces, change nothing in a file that loads. |
| LoaderProperties.TrailingContentIgnored | js/app.js:78-122 | The same holds for text appended after a newline. |
| LoaderProperties.HeaderLineIgnored | js/app.js:101-108 | Inserting a header line that is neither a declaration nor `end_header` changes nothing. |
| LoaderProperties.HeaderEndInsert | js/app.js:101-108 | Such a line moves the `end_header` line down by one, or there still is none. |
| LoaderProperties.DeclaredFieldInsert | js/app.js:101-108 | Such a line leaves the count unchanged. |
| LoaderProperties.WellFormedFileLoads | js/app.js:77-126 | This file loads exactly its `n` vertex lines, whatever follows them: `ply`, `format ascii 1.0`, `element vertex <n>`, other header lines, `end_header`, then `n` vertex lines. |

## Left out

- Browser input and output is not modelled, because it is I/O and UI: `readContent`, the `FileReader`, the jQuery `change` binding and the `alert` calls (js/app.js:74, 86, 94, 128-142). Each alert is the outcome it reports.
- The three.js setup and the render loop are not modelled: scene, camera, renderer, `render` and `requestAnimationFrame` (js/app.js:5-16, 27-31). They are calls into a foreign library. The scene is a list of added point sets, and a point set is its vertices, colour and size (js/app.js:47-53).
- Loader.Numbers: the conversion from string to number that `* 1000` performs is the parameter `toNumber`. JavaScript's `ToNumber` and `NaN` are not modelled.
- Visualisation.Scaled: the scaling is exact multiplication of reals. Floating-point rounding is not modelled.
- JsString.ParseInt: the result is an unbounded integer. It ignores the rounding `parseInt` applies to numerals beyond 2^53.
- Visualisation.View.PrintPointCloud requires `y` and `z` to be at least as long as `x`. The loader always passes columns of equal length; the code would read `undefined` there and produce `NaN`.
- The wider application's scene store, selection, normalisation and the completion-job client are not modelled. No code for them exists in js/app.js.
