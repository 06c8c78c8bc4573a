/** `parseTimestamp` and `formatTime` of video-splitter.js: conversion between
    an `H:M:S` string and a number of seconds. */
module Timestamp {
  import opened Wrappers
  import opened JsText

  /** `parseTimestamp(t)`: splits `t` on `:`, converts every field with
      `Number`, and combines the first three as `H*3600 + M*60 + S`. A missing
      field (`undefined`) or a field that is not a number makes the sum NaN. */
  function ParseTimestamp(t: string): (r: Option<nat>)
    ensures r.Some? ==> Count(t, ':') >= 2
  {
    var fields := Split(t, ':');
    if |fields| < 3 then None
    else
      var h, m, s := Number(fields[0]), Number(fields[1]), Number(fields[2]);
      if h.Some? && m.Some? && s.Some? then Some(h.value * 3600 + m.value * 60 + s.value)
      else None
  }

  /** One field of `formatTime`: `x.toString().padStart(2, '0')`. */
  function Field(x: nat): (r: string)
    ensures |r| >= 2 && AllDigits(r)
    ensures x < 100 ==> |r| == 2
  {
    assert x < 100 ==> |Decimal(x)| <= 2 by {
      if 10 <= x < 100 {
        assert Decimal(x) == Decimal(x / 10) + [DigitChar(x % 10)];
      }
    }
    PadStart2(Decimal(x))
  }

  /** `formatTime(seconds)` for a natural number of seconds: hours, minutes
      and seconds, each floored and zero-padded to at least two characters. */
  function FormatTime(seconds: nat): (r: string)
    ensures |r| >= 8
    ensures r[|r| - 6] == ':' && r[|r| - 3] == ':'
    ensures AllDigits(r[..|r| - 6]) && AllDigits(r[|r| - 5..|r| - 3]) && AllDigits(r[|r| - 2..])
  {
    var h, m, s := Field(seconds / 3600), Field(seconds % 3600 / 60), Field(seconds % 60);
    ColonFields(h, m, s);
    h + ":" + m + ":" + s
  }

  /** Where the pieces of `h:m:s` sit when `m` and `s` are two long. */
  lemma {:induction false} ColonFields(h: string, m: string, s: string)
    requires |m| == 2 && |s| == 2
    ensures var r := h + ":" + m + ":" + s;
      && r[..|r| - 6] == h && r[|r| - 6] == ':' && r[|r| - 5..|r| - 3] == m
      && r[|r| - 3] == ':' && r[|r| - 2..] == s
  {
    var r := h + ":" + m + ":" + s;
    assert r == h + (":" + m + ":" + s);
  }

  /** `formatTime` applied to NaN (or `undefined`): every field prints "NaN". */
  function FormatValue(v: Option<nat>): (r: string)
    ensures |r| >= 8
    ensures IsDigit(r[0]) <==> v.Some?
  {
    match v
    case Some(n) => FormatTime(n)
    case None => "NaN:NaN:NaN"
  }

  /** A field of `formatTime` is a digit string of two or more characters
      that denotes the value it was printed from. */
  lemma {:induction false} FieldShape(x: nat)
    ensures |Field(x)| >= 2 && AllDigits(Field(x)) && ':' !in Field(x)
    ensures Number(Field(x)) == Some(x)
  {
    NumberOfPadded(x);
    NoSeparatorInDigits(Field(x), ':');
  }

  /** Three digit strings joined by `:` split back into the three of them. */
  lemma {:induction false} SplitThreeFields(a: string, b: string, c: string)
    requires AllDigits(a) && AllDigits(b) && AllDigits(c)
    ensures Split(a + ":" + b + ":" + c, ':') == [a, b, c]
  {
    NoSeparatorInDigits(a, ':');
    NoSeparatorInDigits(b, ':');
    NoSeparatorInDigits(c, ':');
    assert Join([b, c], ':') == b + [':'] + c;
    assert Join([a, b, c], ':') == a + [':'] + Join([b, c], ':');
    assert a + ":" + b + ":" + c == Join([a, b, c], ':');
    SplitJoin([a, b, c], ':');
  }

  /** `formatTime(n)` consists of exactly three `:`-separated fields, each at
      least two digits long; they read back as the hours `n / 3600`, the
      minutes `n % 3600 / 60` (below 60) and the seconds `n % 60`. */
  lemma {:induction false} FormatTimeFields(n: nat)
    ensures var f := Split(FormatTime(n), ':');
      && |f| == 3
      && |f[0]| >= 2 && |f[1]| >= 2 && |f[2]| >= 2
      && AllDigits(f[0]) && AllDigits(f[1]) && AllDigits(f[2])
      && Number(f[0]) == Some(n / 3600)
      && Number(f[1]) == Some(n % 3600 / 60) && n % 3600 / 60 < 60
      && Number(f[2]) == Some(n % 60)
  {
    var h, m, s := n / 3600, n % 3600 / 60, n % 60;
    FieldShape(h);
    FieldShape(m);
    FieldShape(s);
    SplitThreeFields(Field(h), Field(m), Field(s));
    assert Split(FormatTime(n), ':') == [Field(h), Field(m), Field(s)];
  }

  /** Round trip: parsing what `formatTime` prints gives back the seconds. */
  lemma {:induction false} ParseFormatTime(n: nat)
    ensures ParseTimestamp(FormatTime(n)) == Some(n)
  {
    var h, m, s := n / 3600, n % 3600 / 60, n % 60;
    SecondsDecompose(n);
    assert h * 3600 + m * 60 + s == n;
    FormatTimeFields(n);
    ParseTimestampOfSplit(FormatTime(n), h, m, s);
  }

  /** `parseTimestamp(t)` once the first three fields of `t` are known numbers. */
  lemma {:induction false} ParseTimestampOfSplit(t: string, h: nat, m: nat, s: nat)
    requires var f := Split(t, ':');
      |f| >= 3 && Number(f[0]) == Some(h) && Number(f[1]) == Some(m) && Number(f[2]) == Some(s)
    ensures ParseTimestamp(t).Some?
    ensures ParseTimestamp(t).value == h * 3600 + m * 60 + s
  {
  }

  /** Hours, minutes and seconds recombine into the total. */
  lemma {:induction false} SecondsDecompose(n: nat)
    ensures (n / 3600) * 3600 + (n % 3600 / 60) * 60 + n % 60 == n
  {
  }

  /** Division by 60 is determined by quotient and remainder. */
  lemma {:induction false} DivMod60(x: int, q: int, r: int)
    requires x == 60 * q + r && 0 <= r < 60
    ensures x / 60 == q && x % 60 == r
  {
  }

  /** `parseTimestamp` of fields H, M, S (followed by any further fields, which
      are ignored) is `H*3600 + M*60 + S`; it is NaN exactly when there are
      fewer than three fields or one of the first three is not a number. */
  lemma {:induction false} ParseTimestampOfFields(fs: seq<string>)
    requires |fs| >= 1
    requires forall i :: 0 <= i < |fs| ==> ':' !in fs[i]
    ensures ParseTimestamp(Join(fs, ':')).Some? <==>
      |fs| >= 3 && Number(fs[0]).Some? && Number(fs[1]).Some? && Number(fs[2]).Some?
    ensures ParseTimestamp(Join(fs, ':')).Some? ==>
      ParseTimestamp(Join(fs, ':')).value ==
        Number(fs[0]).value * 3600 + Number(fs[1]).value * 60 + Number(fs[2]).value
  {
    SplitJoin(fs, ':');
  }

  /** `x.toString()` holds no `:` and reads back as `x`. */
  lemma {:induction false} DecimalField(x: nat)
    ensures ':' !in Decimal(x) && Number(Decimal(x)) == Some(x)
  {
    DecimalValue(x);
    NumberOfDigits(Decimal(x));
    NoSeparatorInDigits(Decimal(x), ':');
  }

  /** Three printed naturals followed by `:`-free fields: no field holds a
      `:`, and the first three read back as the naturals. */
  lemma {:induction false} DecimalFields(h: nat, m: nat, s: nat, rest: seq<string>)
    requires forall i :: 0 <= i < |rest| ==> ':' !in rest[i]
    ensures var fs := [Decimal(h), Decimal(m), Decimal(s)] + rest;
      && (forall i :: 0 <= i < |fs| ==> ':' !in fs[i])
      && Number(fs[0]) == Some(h) && Number(fs[1]) == Some(m) && Number(fs[2]) == Some(s)
  {
    var fs := [Decimal(h), Decimal(m), Decimal(s)] + rest;
    assert fs[0] == Decimal(h) && fs[1] == Decimal(m) && fs[2] == Decimal(s);
    assert forall i :: 3 <= i < |fs| ==> fs[i] == rest[i - 3];
    DecimalField(h);
    DecimalField(m);
    DecimalField(s);
  }

  /** The same for fields written as decimal numbers: `H:M:S` followed by any
      further `:`-separated fields parses to `H*3600 + M*60 + S`. */
  lemma {:induction false} ParseTimestampOfDecimals(h: nat, m: nat, s: nat, rest: seq<string>)
    requires forall i :: 0 <= i < |rest| ==> ':' !in rest[i]
    ensures ParseTimestamp(Join([Decimal(h), Decimal(m), Decimal(s)] + rest, ':'))
      == Some(h * 3600 + m * 60 + s)
  {
    DecimalFields(h, m, s, rest);
    ParseTimestampOfNumbers([Decimal(h), Decimal(m), Decimal(s)] + rest, h, m, s);
  }

  /** `parseTimestamp` of `:`-free fields whose first three read as H, M, S. */
  lemma {:induction false} ParseTimestampOfNumbers(fs: seq<string>, h: nat, m: nat, s: nat)
    requires |fs| >= 3 && forall i :: 0 <= i < |fs| ==> ':' !in fs[i]
    requires Number(fs[0]) == Some(h) && Number(fs[1]) == Some(m) && Number(fs[2]) == Some(s)
    ensures ParseTimestamp(Join(fs, ':')) == Some(h * 3600 + m * 60 + s)
  {
    SplitJoin(fs, ':');
    ParseTimestampOfSplit(Join(fs, ':'), h, m, s);
    var r := ParseTimestamp(Join(fs, ':'));
    assert r == Some(r.value);
  }

  /** `formatTime` of `H*3600 + M*60 + S` with minutes and seconds below 60
      prints the three fields themselves. */
  lemma {:induction false} FormatTimeOfFields(n: nat, h: nat, m: nat, s: nat)
    requires n == h * 3600 + m * 60 + s && m < 60 && s < 60
    ensures FormatTime(n) == Field(h) + ":" + Field(m) + ":" + Field(s)
  {
    DivMod3600(n, h, m * 60 + s);
    DivMod60(m * 60 + s, m, s);
    DivMod60(n, 60 * h + m, s);
  }

  /** Division by 3600 is determined by quotient and remainder. */
  lemma {:induction false} DivMod3600(x: int, q: int, r: int)
    requires x == 3600 * q + r && 0 <= r < 3600
    ensures x / 3600 == q && x % 3600 == r
  {
  }

  /** A canonical timestamp: two digits, `:`, two digits below 60, `:`, two
      digits below 60. */
  predicate Canonical(t: string) {
    && |t| == 8 && t[2] == ':' && t[5] == ':'
    && IsDigit(t[0]) && IsDigit(t[1])
    && '0' <= t[3] <= '5' && IsDigit(t[4])
    && '0' <= t[6] <= '5' && IsDigit(t[7])
  }

  /** Two digits read as a number and printed back by `Field` are unchanged;
      a first digit of at most 5 keeps the number below 60. */
  lemma {:induction false} TwoDigitField(d: string)
    requires |d| == 2 && AllDigits(d)
    ensures Number(d).Some? && Field(Number(d).value) == d
    ensures d[0] <= '5' ==> Number(d).value < 60
  {
    var d0, d1 := DigitValue(d[0]), DigitValue(d[1]);
    TwoDigitValue(d);
    NumberOfDigits(d);
    var n := Number(d);
    var x := 10 * d0 + d1;
    assert n == Some(x);
    PrintTwoDigits(d0, d1);
    assert d == [DigitChar(d0), DigitChar(d1)];
    assert Field(x) == d;
    assert d[0] <= '5' ==> d0 <= 5;
  }

  /** The value of a two-digit string. */
  lemma {:induction false} TwoDigitValue(d: string)
    requires |d| == 2 && AllDigits(d)
    ensures DigitsValue(d) == 10 * DigitValue(d[0]) + DigitValue(d[1])
  {
    var p := d[..1];
    assert p == [d[0]] && p[..0] == [];
    assert DigitsValue(p) == DigitsValue(p[..0]) * 10 + DigitValue(p[0]);
    assert d[..|d| - 1] == p;
    assert DigitsValue(d) == DigitsValue(p) * 10 + DigitValue(d[1]);
  }

  /** A number below 100 is printed by `Field` as its two digits. */
  lemma {:induction false} PrintTwoDigits(d0: nat, d1: nat)
    requires d0 < 10 && d1 < 10
    ensures Field(10 * d0 + d1) == [DigitChar(d0), DigitChar(d1)]
  {
    var x := 10 * d0 + d1;
    if d0 == 0 {
      assert Decimal(x) == [DigitChar(d1)];
    } else {
      DivMod10(x, d0, d1);
      assert Decimal(x) == Decimal(d0) + [DigitChar(d1)];
    }
  }

  /** Division by 10 is determined by quotient and remainder. */
  lemma {:induction false} DivMod10(x: int, q: int, r: int)
    requires x == 10 * q + r && 0 <= r < 10
    ensures x / 10 == q && x % 10 == r
  {
  }

  /** Reverse round trip: a canonical `HH:MM:SS` string parses to a number
      that `formatTime` prints as the same string. */
  lemma {:induction false} FormatParseCanonical(t: string)
    requires Canonical(t)
    ensures ParseTimestamp(t).Some?
    ensures FormatTime(ParseTimestamp(t).value) == t
  {
    var hh, mm, ss := t[..2], t[3..5], t[6..];
    assert t == hh + ":" + mm + ":" + ss;
    assert |hh| == |mm| == |ss| == 2 && AllDigits(hh) && AllDigits(mm) && AllDigits(ss);
    assert mm[0] <= '5' && ss[0] <= '5';
    SplitThreeFields(hh, mm, ss);
    var f := Split(t, ':');
    assert f == [hh, mm, ss];
    TwoDigitField(hh);
    TwoDigitField(mm);
    TwoDigitField(ss);
    var h, m, s := Number(hh).value, Number(mm).value, Number(ss).value;
    assert Number(f[0]) == Some(h) && Number(f[1]) == Some(m) && Number(f[2]) == Some(s);
    assert Field(h) == hh && Field(m) == mm && Field(s) == ss;
    assert m < 60 && s < 60;
    ParseTimestampOfSplit(t, h, m, s);
    FormatTimeOfFields(ParseTimestamp(t).value, h, m, s);
  }
}
