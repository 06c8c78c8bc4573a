/** The range parsing of the process button's click handler and the two
    strings `createClip` builds for every range: the label shown in the list
    and the file name the download gets. */
module Clips {
  import opened Wrappers
  import opened JsText
  import opened Timestamp

  /** The `[start, end]` pair destructured from one line. `None` is NaN, and
      also stands for an `end` that is `undefined` because the line has no
      `-` (it only ever reaches `formatTime` and a comparison, where it
      behaves as NaN). */
  datatype Range = Range(start: Option<nat>, end: Option<nat>)

  /** What `createClip` keeps for one range: its position in the list and
      the start and end the download handler seeks between. The label shown
      and the name the download gets are functions of these (`Label`,
      `DownloadName`). */
  datatype ClipItem = ClipItem(index: nat, start: Option<nat>, end: Option<nat>)

  // ---------------------------------------------------------------------
  // Parsing the textarea
  // ---------------------------------------------------------------------

  /** One line: split on `-`, every piece trimmed and parsed as a timestamp;
      the first piece is the start, the second the end, the rest is ignored. */
  function ParseLine(line: string): (r: Range)
    ensures r.end.Some? ==> Count(line, '-') >= 1
  {
    var pieces := Split(line, '-');
    var start := ParseTimestamp(Trim(pieces[0]));
    var end := if |pieces| >= 2 then ParseTimestamp(Trim(pieces[1])) else None;
    Range(start, end)
  }

  /** `timestamps.value.trim().split('\n')`. */
  function Lines(text: string): (ls: seq<string>)
    ensures |ls| == Count(Trim(text), '\n') + 1
  {
    Split(Trim(text), '\n')
  }

  /** The ranges of a list of lines, one per line and in order. */
  function ParseAll(lines: seq<string>): (rs: seq<Range>)
    ensures |rs| == |lines|
    ensures forall i :: 0 <= i < |lines| ==> rs[i] == ParseLine(lines[i])
  {
    if lines == [] then [] else [ParseLine(lines[0])] + ParseAll(lines[1..])
  }

  /** The ranges the click handler creates clips for, in order: one per line
      of the trimmed text, and so one more than the line breaks inside it. */
  function ParseRanges(text: string): (rs: seq<Range>)
    ensures |rs| == Count(Trim(text), '\n') + 1
    ensures forall i :: 0 <= i < |rs| ==> rs[i] == ParseLine(Lines(text)[i])
  {
    ParseAll(Lines(text))
  }

  // ---------------------------------------------------------------------
  // createClip
  // ---------------------------------------------------------------------

  /** The item `createClip(start, end, index)` appends to the list. */
  function CreateClip(r: Range, index: nat): (c: ClipItem)
    ensures c.index == index && Range(c.start, c.end) == r
  {
    ClipItem(index, r.start, r.end)
  }

  /** The text of the item's label:
      `Clip ${index + 1}: ${formatTime(start)} - ${formatTime(end)}` */
  function Label(c: ClipItem): (r: string)
    ensures |r| > 6 && r[..5] == "Clip " && IsDigit(r[5])
  {
    "Clip " + Decimal(c.index + 1) + (": " + FormatValue(c.start) + " - " + FormatValue(c.end))
  }

  /** The `download` name of the item's link: `clip_${index + 1}.webm` */
  function DownloadName(c: ClipItem): (r: string)
    ensures |r| >= 11 && r[..5] == "clip_" && r[|r| - 5..] == ".webm"
    ensures AllDigits(r[5..|r| - 5]) && DigitsValue(r[5..|r| - 5]) == c.index + 1
  {
    var d := Decimal(c.index + 1);
    assert ("clip_" + d + ".webm")[5..|d| + 5] == d;
    DecimalValue(c.index + 1);
    "clip_" + d + ".webm"
  }

  /** The items `createClip` makes for a sequence of ranges, the range at
      position `i` with index `i`. */
  function ClipList(rs: seq<Range>): (cs: seq<ClipItem>)
    ensures |cs| == |rs|
    ensures forall i :: 0 <= i < |rs| ==> cs[i] == CreateClip(rs[i], i)
  {
    if rs == [] then [] else ClipList(rs[..|rs| - 1]) + [CreateClip(rs[|rs| - 1], |rs| - 1)]
  }

  // ---------------------------------------------------------------------
  // Properties of line parsing
  // ---------------------------------------------------------------------

  /** A line of two or more `-`-separated pieces: the first two, trimmed and
      parsed, are start and end; any further pieces do not matter. */
  lemma {:induction false} ParseLineOfPieces(a: string, b: string, rest: seq<string>)
    requires '-' !in a && '-' !in b
    requires forall i :: 0 <= i < |rest| ==> '-' !in rest[i]
    ensures ParseLine(Join([a, b] + rest, '-')) ==
      Range(ParseTimestamp(Trim(a)), ParseTimestamp(Trim(b)))
  {
    var ps := [a, b] + rest;
    assert ps[0] == a && ps[1] == b;
    assert forall i :: 2 <= i < |ps| ==> ps[i] == rest[i - 2];
    SplitJoin(ps, '-');
  }

  /** A line without `-` has a start but no end: the end is NaN. */
  lemma {:induction false} ParseLineNoDash(a: string)
    requires '-' !in a
    ensures ParseLine(a) == Range(ParseTimestamp(Trim(a)), None)
  {
    SplitJoin([a], '-');
  }

  /** A blank or all-whitespace textarea still gives exactly one range, with
      both ends NaN. */
  lemma {:induction false} BlankInput(text: string)
    requires AllWhitespace(text)
    ensures ParseRanges(text) == [Range(None, None)]
  {
  }

  /** Lines padded with whitespace as a whole: the handler creates one range
      per line, in order, each parsed from that line alone. */
  lemma {:induction false} ParseRangesOfLines(w1: string, ls: seq<string>, w2: string)
    requires AllWhitespace(w1) && AllWhitespace(w2)
    requires |ls| >= 1 && forall i :: 0 <= i < |ls| ==> '\n' !in ls[i]
    requires ls[0] != [] && !IsWhitespace(ls[0][0])
    requires ls[|ls| - 1] != [] && !IsWhitespace(ls[|ls| - 1][|ls[|ls| - 1]| - 1])
    ensures ParseRanges(w1 + Join(ls, '\n') + w2) == ParseAll(ls)
  {
    var x := Join(ls, '\n');
    JoinFirst(ls, '\n');
    JoinLast(ls, '\n');
    TrimPadded(w1, x, w2);
    SplitJoin(ls, '\n');
  }

  /** The first character of a join is that of its first piece. */
  lemma {:induction false} JoinFirst(ps: seq<string>, sep: char)
    requires |ps| >= 1 && ps[0] != []
    ensures Join(ps, sep) != [] && Join(ps, sep)[0] == ps[0][0]
  {
  }

  /** The last character of a join is that of its last piece. */
  lemma {:induction false} JoinLast(ps: seq<string>, sep: char)
    requires |ps| >= 1 && ps[|ps| - 1] != []
    ensures var j := Join(ps, sep);
      j != [] && j[|j| - 1] == ps[|ps| - 1][|ps[|ps| - 1]| - 1]
  {
    if |ps| > 1 {
      var tail := ps[1..];
      assert tail[|tail| - 1] == ps[|ps| - 1];
      JoinLast(tail, sep);
      assert Join(ps, sep) == (ps[0] + [sep]) + Join(tail, sep);
    }
  }

  /** A whitespace-padded canonical `HH:MM:SS - HH:MM:SS` line parses to
      numbers that `formatTime` prints as the two timestamps. */
  lemma {:induction false} ParseCanonicalLine(w1: string, a: string, w2: string, w3: string, b: string, w4: string)
    requires AllWhitespace(w1) && AllWhitespace(w2) && AllWhitespace(w3) && AllWhitespace(w4)
    requires Canonical(a) && Canonical(b)
    ensures var r := ParseLine(w1 + a + w2 + "-" + w3 + b + w4);
      && r.start.Some? && FormatTime(r.start.value) == a
      && r.end.Some? && FormatTime(r.end.value) == b
      && FormatValue(r.start) == a && FormatValue(r.end) == b
  {
    var p, q := w1 + a + w2, w3 + b + w4;
    NoDashInPadded(w1, a, w2);
    NoDashInPadded(w3, b, w4);
    assert Join([p, q], '-') == w1 + a + w2 + "-" + w3 + b + w4;
    ParseLineOfPieces(p, q, []);
    assert [p, q] + [] == [p, q];
    CanonicalEnds(a);
    CanonicalEnds(b);
    TrimPadded(w1, a, w2);
    TrimPadded(w3, b, w4);
    FormatParseCanonical(a);
    FormatParseCanonical(b);
  }

  lemma {:induction false} CanonicalEnds(t: string)
    requires Canonical(t)
    ensures !IsWhitespace(t[0]) && !IsWhitespace(t[|t| - 1])
  {
  }

  lemma {:induction false} NoDashInPadded(w1: string, t: string, w2: string)
    requires AllWhitespace(w1) && AllWhitespace(w2) && Canonical(t)
    ensures '-' !in w1 + t + w2
  {
  }

  // ---------------------------------------------------------------------
  // Properties of createClip
  // ---------------------------------------------------------------------

  /** A digit string is determined by what follows it when that starts with
      a non-digit. */
  lemma {:induction false} DigitPrefix(d1: string, x: string, d2: string, y: string)
    requires AllDigits(d1) && AllDigits(d2)
    requires x != [] && !IsDigit(x[0]) && y != [] && !IsDigit(y[0])
    requires d1 + x == d2 + y
    ensures d1 == d2 && x == y
  {
    var s := d1 + x;
    assert s[|d1|] == x[0] && (d2 + y)[|d2|] == y[0];
    assert d1 == s[..|d1|] == d2;
    assert x == s[|d1|..] == y;
  }

  /** Two strings that differ only in a number printed after a common prefix
      and followed by text starting with a non-digit come from the same
      number. */
  lemma {:induction false} NumberedEqual(p: string, m: nat, x: string, n: nat, y: string)
    requires x != [] && !IsDigit(x[0]) && y != [] && !IsDigit(y[0])
    requires p + Decimal(m) + x == p + Decimal(n) + y
    ensures m == n
  {
    var s, t := p + Decimal(m) + x, p + Decimal(n) + y;
    assert s[|p|..] == Decimal(m) + x;
    assert t[|p|..] == Decimal(n) + y;
    DigitPrefix(Decimal(m), x, Decimal(n), y);
    DecimalInjective(m, n);
  }

  /** Items at different positions get different download names: equal
      names would hold equal numbers between `clip_` and `.webm`. */
  lemma {:induction false} DownloadNamesDistinct(c1: ClipItem, c2: ClipItem)
    requires c1.index != c2.index
    ensures DownloadName(c1) != DownloadName(c2)
  {
  }

  /** Items at different positions get different labels, whatever their
      ranges. */
  lemma {:induction false} LabelsDistinct(c1: ClipItem, c2: ClipItem)
    requires c1.index != c2.index
    ensures Label(c1) != Label(c2)
  {
    var x := ": " + FormatValue(c1.start) + " - " + FormatValue(c1.end);
    var y := ": " + FormatValue(c2.start) + " - " + FormatValue(c2.end);
    if Label(c1) == Label(c2) {
      NumberedEqual("Clip ", c1.index + 1, x, c2.index + 1, y);
    }
  }

  /** A list whose item at every position is that position's line, parsed
      and made into an item, is the clip list of those lines. */
  lemma {:induction false} ClipListOfLines(lines: seq<string>, cs: seq<ClipItem>)
    requires |cs| == |lines|
    requires forall k :: 0 <= k < |lines| ==> cs[k] == CreateClip(ParseLine(lines[k]), k)
    ensures cs == ClipList(ParseAll(lines))
  {
  }

  /** No two items of a clip list share a download name. */
  lemma {:induction false} ClipListNamesDistinct(rs: seq<Range>)
    ensures var cs := ClipList(rs);
      forall i, j :: 0 <= i < j < |cs| ==> DownloadName(cs[i]) != DownloadName(cs[j])
  {
    var cs := ClipList(rs);
    forall i, j | 0 <= i < j < |cs|
      ensures DownloadName(cs[i]) != DownloadName(cs[j])
    {
      DownloadNamesDistinct(cs[i], cs[j]);
    }
  }

  /** The label of a canonical `HH:MM:SS - HH:MM:SS` line shows the two
      timestamps exactly as they were typed, after the one-based position. */
  lemma {:induction false} LabelOfCanonicalLine(w1: string, a: string, w2: string, w3: string, b: string, w4: string, index: nat)
    requires AllWhitespace(w1) && AllWhitespace(w2) && AllWhitespace(w3) && AllWhitespace(w4)
    requires Canonical(a) && Canonical(b)
    ensures Label(CreateClip(ParseLine(w1 + a + w2 + "-" + w3 + b + w4), index)) ==
      "Clip " + Decimal(index + 1) + (": " + a + " - " + b)
  {
    ParseCanonicalLine(w1, a, w2, w3, b, w4);
    LabelOfLine(w1 + a + w2 + "-" + w3 + b + w4, index, a, b);
  }

  /** The label of a line's item shows what `formatTime` printed for it. */
  lemma {:induction false} LabelOfLine(line: string, index: nat, a: string, b: string)
    requires FormatValue(ParseLine(line).start) == a && FormatValue(ParseLine(line).end) == b
    ensures Label(CreateClip(ParseLine(line), index)) == "Clip " + Decimal(index + 1) + (": " + a + " - " + b)
  {
    LabelOfFormatted(CreateClip(ParseLine(line), index), a, b);
  }

  /** The label shows the position and whatever `formatTime` printed. */
  lemma {:induction false} LabelOfFormatted(c: ClipItem, a: string, b: string)
    requires FormatValue(c.start) == a && FormatValue(c.end) == b
    ensures Label(c) == "Clip " + Decimal(c.index + 1) + (": " + a + " - " + b)
  {
  }

  /** A line with no `-` is labelled with an end of `NaN:NaN:NaN`. */
  lemma {:induction false} LabelOfNoDash(line: string, index: nat)
    requires '-' !in line
    ensures Label(CreateClip(ParseLine(line), index)) ==
      "Clip " + Decimal(index + 1) + (": " + FormatValue(ParseTimestamp(Trim(line))) + " - " + "NaN:NaN:NaN")
  {
    var c := CreateClip(ParseLine(line), index);
    ParseLineNoDash(line);
    LabelOfFormatted(c, FormatValue(ParseTimestamp(Trim(line))), "NaN:NaN:NaN");
  }
}
