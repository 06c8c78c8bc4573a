# Video splitter: timestamps and clip list

A Dafny model of the logic in `video-splitter.js`, a browser page script.
The user chooses a video file and types time ranges into a text area, one
`HH:MM:SS - HH:MM:SS` range per line. The process button then turns each line
into a clip item. Each item has a label
`Clip <n>: <start> - <end>` and a download link named `clip_<n>.webm`.

The model covers:

- `parseTimestamp` and `formatTime`: the conversion between an `H:M:S`
  string and a number of seconds (`timestamp.dfy`, module `Timestamp`).
- The click handler's range parsing. It trims the text and splits it on
  line breaks. Each line is split on `-`, each piece is trimmed, and the
  first two pieces are parsed as start and end (`clips.dfy`, module `Clips`).
- The label text and the download name that `createClip` builds from the
  zero-based index (`clips.dfy`).
- The page state (`page.dfy`, class `Page.VideoSplitter`):
  - the module-level `videoBlob`
  - the enabled state of the process button
  - the clip list, which the click handler empties and then refills, one
    item per line, in a loop
- The JavaScript built-ins that this logic relies on (`js_text.dfy`, module
  `JsText`): `trim` with the ECMAScript whitespace set, `split` on one
  character, `Number(...)` on a string, `toString()` of a natural number,
  and `padStart(2, '0')`.

The script does not validate its input, so JavaScript values that are not
numbers appear in the model:

- A JavaScript number is modelled as `Option<nat>`, and `None` stands for
  NaN. `undefined` is also `None`, because it only ever reaches arithmetic,
  `formatTime` or a comparison, where it behaves as NaN.
- A timestamp with fewer than three `:` fields parses to NaN. So does one
  with a field that is not a number, and so does a line's end when the line
  has no `-`. `formatTime` of NaN prints `NaN:NaN:NaN`.
- An empty or all-blank text area still produces one clip, because splitting
  the empty string gives one empty line. That clip's label is
  `Clip 1: NaN:NaN:NaN - NaN:NaN:NaN` (`Clips.BlankInput`, and the last
  postcondition of `Page.VideoSplitter.Process`).

## Model

| member | source | states |
|---|---|---|
| Timestamp.ParseTimestamp | video-splitter.js:21-24 | a result that is a number needs at least two `:` in the input, i.e. three fields |
| Timestamp.ParseTimestampOfFields | video-splitter.js:21-24 | for `:`-free fields joined by `:`, the parse is a number exactly when there are at least three fields and the first three are numbers; it is then `H*3600 + M*60 + S`, whatever follows the third field |
| Timestamp.ParseTimestampOfNumbers | video-splitter.js:21-24 | fields whose first three read as H, M, S parse to exactly `H*3600 + M*60 + S`; later fields are ignored |
| Timestamp.ParseTimestampOfDecimals | video-splitter.js:21-24 | `H:M:S` written in decimal, followed by any further `:` fields, parses to `H*3600 + M*60 + S` |
| Timestamp.DecimalFields | video-splitter.js:22 | decimal fields hold no `:` and `Number` reads each back as its value |
| Timestamp.Field | video-splitter.js:31 | a padded field is all digits and at least two long, exactly two for values below 100 |
| Timestamp.FormatTime | video-splitter.js:27-32 | `formatTime(n)` is at least eight long, with `:` sixth and third from the end and digits elsewhere: minutes and seconds always take exactly two digits |
| Timestamp.FormatValue | video-splitter.js:27-32 | the printed text is at least eight long and starts with a digit exactly when the value is a number, not NaN |
| Timestamp.FieldShape | video-splitter.js:31 | a padded field is at least two characters, all digits, and reads back as its value |
| Timestamp.FormatTimeFields | video-splitter.js:27-32 | `formatTime(n)` has exactly three `:` fields, each of at least two digits; they read as `n / 3600`, `n % 3600 / 60` (below 60) and `n % 60` |
| Timestamp.SecondsDecompose | video-splitter.js:28-30 | hours, minutes and seconds recombine into `n` |
| Timestamp.FormatTimeOfFields | video-splitter.js:27-32 | `formatTime(H*3600 + M*60 + S)` with `M, S < 60` prints the padded fields H, M, S |
| Timestamp.ParseFormatTime | video-splitter.js:21-32 | round trip: `parseTimestamp(formatTime(n)) == n` for every natural `n` |
| Timestamp.TwoDigitField | video-splitter.js:22-31 | two digits read by `Number` and printed back padded are unchanged; a first digit of at most 5 gives a value below 60 |
| Timestamp.FormatParseCanonical | video-splitter.js:21-32 | reverse round trip: a canonical `HH:MM:SS` (`MM`, `SS` below 60) parses to a number, and `formatTime` prints that number as the same string |
| JsText.Trim | video-splitter.js:36 | `trim` never lengthens; a non-empty result neither starts nor ends with whitespace; the result is empty exactly when the input is all whitespace |
| JsText.TrimPadded | video-splitter.js:36 | `trim` removes exactly the whitespace padding around text whose ends are not whitespace |
| JsText.Split | video-splitter.js:36 | `split` gives one more piece than there are separators, and no piece holds the separator |
| JsText.SplitJoin | video-splitter.js:40 | splitting separator-free pieces joined by the separator gives the pieces back |
| JsText.JoinSplit | video-splitter.js:40 | joining the pieces of a split with the separator gives the string back |
| JsText.SplitPrefix | video-splitter.js:22 | a separator-free prefix becomes part of the first piece |
| JsText.Decimal | video-splitter.js:31 | `toString()` of a natural is a non-empty digit string without a leading zero |
| JsText.DecimalValue | video-splitter.js:31 | the digits printed for `n` denote `n` |
| JsText.DecimalInjective | video-splitter.js:31 | distinct naturals print differently |
| JsText.LeadingZero | video-splitter.js:31 | a leading `0` does not change the value of a digit string |
| JsText.Number | video-splitter.js:22 | `Number` of a digit string is a number |
| JsText.NumberOfDigits | video-splitter.js:22 | `Number` of a digit string is its decimal value; the blank string gives 0 |
| JsText.PadStart2 | video-splitter.js:31 | `padStart(2, '0')` is at least two long, ends with its input, and is `0` before it |
| JsText.NumberOfPadded | video-splitter.js:22-31 | the padded decimal of `n` is all digits and reads back as `n` |
| Clips.ParseLine | video-splitter.js:40 | a line's end is a number only if the line holds a `-` |
| Clips.Lines | video-splitter.js:36 | the trimmed text has one line more than it has line breaks |
| Clips.ParseAll | video-splitter.js:39-41 | one range per line, in order, the i-th parsed from the i-th line |
| Clips.ParseRanges | video-splitter.js:36-42 | one range per line of the trimmed text, in input order, the i-th parsed from the i-th line |
| Clips.ClipList | video-splitter.js:39-41 | one item per range, in order, the i-th item made from the i-th range with index i |
| Clips.ParseLineOfPieces | video-splitter.js:40 | start and end are the trimmed first and second `-` pieces, parsed; further pieces are ignored |
| Clips.ParseLineNoDash | video-splitter.js:40 | a line without `-` has a parsed start and a NaN end |
| Clips.BlankInput | video-splitter.js:36-42 | a blank text area gives exactly one range, with both ends NaN |
| Clips.ParseRangesOfLines | video-splitter.js:36-42 | lines joined by line breaks and padded with whitespace give one range per line, in order |
| Clips.ParseCanonicalLine | video-splitter.js:40 | a padded `HH:MM:SS - HH:MM:SS` line parses to numbers that `formatTime` prints as the two timestamps |
| Clips.Label | video-splitter.js:51 | the label starts with `Clip ` followed by a digit |
| Clips.DownloadName | video-splitter.js:89 | the name is `clip_`, then digits, then `.webm`, and the digits denote `index + 1` |
| Clips.DownloadNamesDistinct | video-splitter.js:89 | items at different indexes get different `clip_<n>.webm` names |
| Clips.LabelsDistinct | video-splitter.js:51 | items at different indexes get different labels |
| Clips.ClipListNamesDistinct | video-splitter.js:89 | no two items of a clip list share a download name |
| Clips.LabelOfCanonicalLine | video-splitter.js:40-51 | a padded `HH:MM:SS - HH:MM:SS` line is labelled `Clip <index+1>: HH:MM:SS - HH:MM:SS`, with the timestamps as typed |
| Clips.LabelOfNoDash | video-splitter.js:40-51 | a line without `-` is labelled with the end `NaN:NaN:NaN` |
| Page.VideoSplitter.constructor | video-splitter.js:8 | no file yet (`videoBlob` is `null`) and an empty clip list |
| Page.VideoSplitter.SelectFile | video-splitter.js:11-18 | the first chosen file becomes `videoBlob` and enables the button; an empty selection changes nothing; the clip list is untouched |
| Page.VideoSplitter.AppendClip | video-splitter.js:121-123 | the new item goes at the end of the list; nothing else changes |
| Page.VideoSplitter.Process | video-splitter.js:35-43 | runs only while the button is enabled; the old list is replaced, not extended, by one item per line in order; no two items share a download name; blank input gives one NaN item; `videoBlob` and the button are untouched |

## Left out

- JsText.Number: only a blank string (0) and a string of decimal digits
  are numbers. The model calls every other string NaN, including `1.5`,
  `-3`, `1e3`, `0x10`, `Infinity` and digits with a sign or an exponent,
  although JavaScript reads these as numbers. Fields that are fractions or
  negative numbers are therefore not modelled.
- Timestamp.FormatTime: defined for natural numbers of seconds only. With
  the number model above, no other value reaches it except NaN, which
  `Timestamp.FormatValue` covers. `Math.floor` on fractions is not modelled.
- Timestamp.ParseTimestamp: integers are unbounded. The rounding of
  JavaScript's double-precision numbers above 2^53, and their
  exponent-form `toString()` from 10^21 on, are not modelled.
- The DOM is not modelled: element lookups, `innerHTML`, element creation,
  class names, the `Download Clip` button text (line 54) and the video
  player's `src` (line 15). The clip list is a sequence of items. Each item
  holds the index, start and end that `createClip` captures, and its label
  and download name are functions of these.
- The process button's disabled state gates `Process`, because the browser
  delivers no clicks to a disabled button. The markup that sets its initial
  state is not part of this model, so the constructor takes that state as a
  parameter.
- The download pipeline is not modelled: the video and canvas elements,
  `MediaRecorder`, `captureStream`, the `requestAnimationFrame` frame loop,
  blobs and object URLs, and the anchor click (lines 55-119). This is
  asynchronous browser media I/O. It reads `videoBlob`, `start` and `end`
  when the button is clicked, and the model keeps all three.
- The `Promise`/`await` wrapper and the `try`/`catch` with `console.error`
  and `alert` are not modelled. They are asynchrony and user notification.
- The file picker is a parameter: the list of chosen files. A file is its
  name and its bytes.
