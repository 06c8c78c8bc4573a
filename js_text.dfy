/** The part of JavaScript's String and Number built-ins that the page script
    relies on: `trim`, `split` with a one-character separator, `Number(...)`
    on a string, `Number.prototype.toString()` for naturals and
    `padStart(2, '0')`. */
module JsText {
  import opened Wrappers

  // ---------------------------------------------------------------------
  // Whitespace and trim
  // ---------------------------------------------------------------------

  /** ECMAScript WhiteSpace and LineTerminator code points: the characters that
      `String.prototype.trim` and `Number(...)` strip from both ends. */
  predicate IsWhitespace(c: char) {
    || c == '\t' || c == '\n' || c == '\U{000B}' || c == '\U{000C}' || c == '\r'
    || c == ' ' || c == '\U{00A0}' || c == '\U{1680}' || ('\U{2000}' <= c <= '\U{200A}')
    || c == '\U{2028}' || c == '\U{2029}' || c == '\U{202F}' || c == '\U{205F}'
    || c == '\U{3000}' || c == '\U{FEFF}'
  }

  predicate AllWhitespace(s: string) {
    forall i :: 0 <= i < |s| ==> IsWhitespace(s[i])
  }

  /** Length of the longest whitespace prefix of `s`. */
  function LeadingWhitespace(s: string): (k: nat)
    ensures k <= |s|
    ensures forall i :: 0 <= i < k ==> IsWhitespace(s[i])
    ensures k < |s| ==> !IsWhitespace(s[k])
  {
    if s != [] && IsWhitespace(s[0]) then 1 + LeadingWhitespace(s[1..]) else 0
  }

  /** Length of the longest whitespace suffix of `s`. */
  function TrailingWhitespace(s: string): (k: nat)
    ensures k <= |s|
    ensures forall i :: |s| - k <= i < |s| ==> IsWhitespace(s[i])
    ensures k < |s| ==> !IsWhitespace(s[|s| - k - 1])
  {
    if s != [] && IsWhitespace(s[|s| - 1]) then 1 + TrailingWhitespace(s[..|s| - 1]) else 0
  }

  /** `s.trim()`: the whitespace prefix goes first, then the whitespace
      suffix of what remains. */
  function Trim(s: string): (r: string)
    ensures |r| <= |s|
    ensures r != [] ==> !IsWhitespace(r[0]) && !IsWhitespace(r[|r| - 1])
    ensures r == [] <==> AllWhitespace(s)
  {
    var rest := s[LeadingWhitespace(s)..];
    assert rest != [] ==> TrailingWhitespace(rest) < |rest|;
    rest[..|rest| - TrailingWhitespace(rest)]
  }

  lemma {:induction false} LeadingOfPadded(w: string, t: string)
    requires AllWhitespace(w)
    requires t != [] ==> !IsWhitespace(t[0])
    ensures LeadingWhitespace(w + t) == |w|
  {
    if w != [] {
      assert (w + t)[1..] == w[1..] + t;
      LeadingOfPadded(w[1..], t);
    } else {
      assert w + t == t;
    }
  }

  lemma {:induction false} TrailingOfPadded(t: string, w: string)
    requires AllWhitespace(w)
    requires t != [] ==> !IsWhitespace(t[|t| - 1])
    ensures TrailingWhitespace(t + w) == |w|
  {
    if w != [] {
      assert (t + w)[..|t + w| - 1] == t + w[..|w| - 1];
      TrailingOfPadded(t, w[..|w| - 1]);
    } else {
      assert t + w == t;
    }
  }

  /** Trim undoes whitespace padding: the partner of `Trim`. */
  lemma {:induction false} TrimPadded(w1: string, x: string, w2: string)
    requires AllWhitespace(w1) && AllWhitespace(w2)
    requires x != [] ==> !IsWhitespace(x[0]) && !IsWhitespace(x[|x| - 1])
    ensures Trim(w1 + x + w2) == x
  {
    var s := w1 + x + w2;
    if x == [] {
      assert AllWhitespace(s);
      assert LeadingWhitespace(s) == |s|;
    } else {
      assert s == w1 + (x + w2);
      LeadingOfPadded(w1, x + w2);
      assert s[|w1|..] == x + w2;
      TrailingOfPadded(x, w2);
      assert (x + w2)[..|x|] == x;
    }
  }

  // ---------------------------------------------------------------------
  // split and its inverse, join
  // ---------------------------------------------------------------------

  /** Number of occurrences of `c` in `s`. */
  function Count(s: string, c: char): nat {
    if s == [] then 0 else (if s[0] == c then 1 else 0) + Count(s[1..], c)
  }

  /** `ps.join(sep)` */
  function Join(ps: seq<string>, sep: char): string
    requires |ps| >= 1
  {
    if |ps| == 1 then ps[0] else ps[0] + [sep] + Join(ps[1..], sep)
  }

  /** `s.split(sep)` for a one-character separator: one more piece than there
      are separators, and none of the pieces holds the separator. */
  function Split(s: string, sep: char): (r: seq<string>)
    ensures |r| == Count(s, sep) + 1
    ensures forall i :: 0 <= i < |r| ==> sep !in r[i]
  {
    if s == [] then [[]]
    else
      var rest := Split(s[1..], sep);
      if s[0] == sep then [[]] + rest
      else [[s[0]] + rest[0]] + rest[1..]
  }

  /** Joining the pieces of a split with the separator gives back the string. */
  lemma {:induction false} JoinSplit(s: string, sep: char)
    ensures Join(Split(s, sep), sep) == s
  {
    if s != [] {
      var rest := Split(s[1..], sep);
      JoinSplit(s[1..], sep);
      if s[0] == sep {
        assert Split(s, sep) == [[]] + rest;
        assert [sep] + s[1..] == s;
      } else {
        assert [s[0]] + s[1..] == s;
        if |rest| > 1 {
          assert Join(rest, sep) == rest[0] + [sep] + Join(rest[1..], sep);
          assert ([[s[0]] + rest[0]] + rest[1..])[1..] == rest[1..];
        }
      }
    }
  }

  lemma {:induction false} SplitPrefix(p: string, t: string, sep: char)
    requires sep !in p
    ensures Split(p + t, sep) == [p + Split(t, sep)[0]] + Split(t, sep)[1..]
  {
    if p == [] {
      var u := Split(t, sep);
      assert p + t == t;
      assert p + u[0] == u[0];
      assert [u[0]] + u[1..] == u;
    } else {
      var s := p + t;
      assert s[0] == p[0] && s[0] != sep;
      assert s[1..] == p[1..] + t;
      var rest := Split(s[1..], sep);
      assert Split(s, sep) == [[s[0]] + rest[0]] + rest[1..];
      SplitPrefix(p[1..], t, sep);
      var u := Split(t, sep);
      assert rest == [p[1..] + u[0]] + u[1..];
      assert [s[0]] + rest[0] == p + u[0];
    }
  }

  /** Splitting a join gives back the pieces, when no piece holds the separator. */
  lemma {:induction false} SplitJoin(ps: seq<string>, sep: char)
    requires |ps| >= 1
    requires forall i :: 0 <= i < |ps| ==> sep !in ps[i]
    ensures Split(Join(ps, sep), sep) == ps
  {
    if |ps| == 1 {
      SplitPrefix(ps[0], [], sep);
      assert ps[0] + [] == ps[0];
    } else {
      var j := Join(ps[1..], sep);
      assert Join(ps, sep) == ps[0] + ([sep] + j);
      SplitPrefix(ps[0], [sep] + j, sep);
      assert ([sep] + j)[1..] == j;
      SplitJoin(ps[1..], sep);
      assert Split([sep] + j, sep) == [[]] + ps[1..];
      assert ps[0] + [] == ps[0];
    }
  }

  // ---------------------------------------------------------------------
  // Decimal digits, toString and Number
  // ---------------------------------------------------------------------

  predicate IsDigit(c: char) {
    '0' <= c <= '9'
  }

  predicate AllDigits(s: string) {
    forall i :: 0 <= i < |s| ==> IsDigit(s[i])
  }

  /** A string of digits holds no separator character. */
  lemma {:induction false} NoSeparatorInDigits(s: string, c: char)
    requires AllDigits(s) && !IsDigit(c)
    ensures c !in s
  {
  }

  function DigitChar(d: nat): (c: char)
    requires d < 10
    ensures IsDigit(c)
  {
    ('0' as int + d) as char
  }

  function DigitValue(c: char): (d: nat)
    requires IsDigit(c)
    ensures d < 10 && DigitChar(d) == c
  {
    c as int - '0' as int
  }

  /** The natural number a string of decimal digits denotes. */
  function DigitsValue(s: string): nat
    requires AllDigits(s)
  {
    if s == [] then 0 else DigitsValue(s[..|s| - 1]) * 10 + DigitValue(s[|s| - 1])
  }

  /** `n.toString()` for a natural `n`: a non-empty digit string without
      leading zeros. */
  function Decimal(n: nat): (r: string)
    ensures |r| >= 1 && AllDigits(r)
    ensures r[0] == '0' ==> n == 0
  {
    if n < 10 then [DigitChar(n)] else Decimal(n / 10) + [DigitChar(n % 10)]
  }

  /** The digit string printed for `n` denotes `n`. */
  lemma {:induction false} DecimalValue(n: nat)
    ensures DigitsValue(Decimal(n)) == n
  {
    if n >= 10 {
      var d := Decimal(n);
      assert d[..|d| - 1] == Decimal(n / 10);
      DecimalValue(n / 10);
    }
  }

  /** Distinct naturals print differently. */
  lemma {:induction false} DecimalInjective(m: nat, n: nat)
    requires Decimal(m) == Decimal(n)
    ensures m == n
  {
    DecimalValue(m);
    DecimalValue(n);
  }

  /** Leading zeros do not change the value of a digit string. */
  lemma {:induction false} LeadingZero(s: string)
    requires AllDigits(s)
    ensures AllDigits(['0'] + s) && DigitsValue(['0'] + s) == DigitsValue(s)
  {
    if s != [] {
      var z := ['0'] + s;
      assert z[..|z| - 1] == ['0'] + s[..|s| - 1];
      LeadingZero(s[..|s| - 1]);
    } else {
      assert (['0'] + s)[..0] == [];
    }
  }

  /** `Number(s)` when the result is a natural number: after trimming, the
      empty string gives 0 and a digit string gives its value. Anything else
      is `None`, which covers NaN. */
  function Number(s: string): (r: Option<nat>)
    ensures AllDigits(s) ==> r.Some?
  {
    var u := Trim(s);
    if u == [] then Some(0)
    else if AllDigits(u) then Some(DigitsValue(u))
    else None
  }

  /** Number reads back what Decimal prints. */
  lemma {:induction false} NumberOfDigits(s: string)
    requires AllDigits(s)
    ensures Number(s) == Some(DigitsValue(s))
  {
    assert s == [] + s + [];
    TrimPadded([], s, []);
  }

  // ---------------------------------------------------------------------
  // padStart(2, '0')
  // ---------------------------------------------------------------------

  /** `s.padStart(2, '0')`: `s` itself when it is two characters or longer,
      otherwise `s` preceded by as many `'0'` as make it two long. */
  function PadStart2(s: string): (r: string)
    ensures |r| == if |s| >= 2 then |s| else 2
    ensures forall i :: 0 <= i < |s| ==> r[|r| - |s| + i] == s[i]
    ensures forall i :: 0 <= i < |r| - |s| ==> r[i] == '0'
  {
    if |s| >= 2 then s else if |s| == 1 then ['0'] + s else "00"
  }

  /** Padding a printed natural keeps it a digit string of the same value. */
  lemma {:induction false} NumberOfPadded(n: nat)
    ensures AllDigits(PadStart2(Decimal(n)))
    ensures Number(PadStart2(Decimal(n))) == Some(n)
  {
    var d := Decimal(n);
    DecimalValue(n);
    if |d| == 1 {
      LeadingZero(d);
      NumberOfDigits(['0'] + d);
    } else {
      NumberOfDigits(d);
    }
  }
}
