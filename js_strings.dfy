/** The JavaScript built-ins whose exact behaviour the editor depends on, stated on
    Dafny strings: `String.prototype.split` with a one-character separator,
    `Array.prototype.join`, `Array.prototype.slice(0, -1)`,
    `String.prototype.lastIndexOf`, the global `parseInt` called without a radix,
    and the decimal text a template literal gives a whole number. */
module JsStrings {
  import opened Common

  /** Number of positions of `s` that hold `c`. */
  function Occurrences(s: string, c: char): nat
    decreases |s|
  {
    if |s| == 0 then 0 else (if s[0] == c then 1 else 0) + Occurrences(s[1..], c)
  }

  /** `s.split(sep)` for a one-character separator: the runs between separators,
      empty runs (at either end, or between two adjacent separators) included. */
  function Split(s: string, sep: char): (parts: seq<string>)
    ensures |parts| == Occurrences(s, sep) + 1
    ensures forall i :: 0 <= i < |parts| ==> sep !in parts[i]
    decreases |s|
  {
    if |s| == 0 then [""]
    else
      var rest := Split(s[1..], sep);
      if s[0] == sep then [""] + rest
      else [[s[0]] + rest[0]] + rest[1..]
  }

  /** Counting separators distributes over concatenation. */
  lemma {:induction false} OccurrencesAppend(a: string, b: string, c: char)
    ensures Occurrences(a + b, c) == Occurrences(a, c) + Occurrences(b, c)
    decreases |a|
  {
    if |a| == 0 {
      assert a + b == b;
    } else {
      assert (a + b)[0] == a[0] && (a + b)[1..] == a[1..] + b;
      OccurrencesAppend(a[1..], b, c);
    }
  }

  /** Text without `c` holds it nowhere. */
  lemma {:induction false} OccurrencesAbsent(s: string, c: char)
    ensures c !in s ==> Occurrences(s, c) == 0
    decreases |s|
  {
    if |s| > 0 && c !in s {
      assert forall i :: 0 <= i < |s| - 1 ==> s[1..][i] == s[i + 1];
      OccurrencesAbsent(s[1..], c);
    }
  }

  /** `parts.join(sep)`: the parts in order with one separator between neighbours, so
      parts free of the separator give exactly one fewer separators than parts. */
  function Join(parts: seq<string>, sep: char): (r: string)
    ensures |parts| > 0 ==> parts[0] <= r
    ensures (forall i :: 0 <= i < |parts| ==> sep !in parts[i]) ==>
              Occurrences(r, sep) == if |parts| == 0 then 0 else |parts| - 1
    decreases |parts|
  {
    if |parts| == 0 then ""
    else if |parts| == 1 then
      OccurrencesAbsent(parts[0], sep);
      parts[0]
    else
      var tail := Join(parts[1..], sep);
      assert forall i :: 0 <= i < |parts| - 1 ==> parts[1..][i] == parts[i + 1];
      OccurrencesAppend(parts[0] + [sep], tail, sep);
      OccurrencesAppend(parts[0], [sep], sep);
      OccurrencesAbsent(parts[0], sep);
      assert Occurrences([sep], sep) == 1 by { assert [sep][1..] == []; }
      parts[0] + [sep] + tail
  }

  /** `xs.slice(0, -1)`: every element but the last; nothing for an empty array. */
  function DropLast<T>(xs: seq<T>): (r: seq<T>)
    ensures |xs| == 0 ==> r == []
    ensures |xs| > 0 ==> |r| == |xs| - 1 && r <= xs
  {
    if |xs| == 0 then [] else xs[..|xs| - 1]
  }

  /** `s.lastIndexOf(c)`: the greatest position holding `c`, or -1 when there is none. */
  function LastIndexOf(s: string, c: char): (k: int)
    ensures -1 <= k < |s|
    ensures k >= 0 ==> s[k] == c
    ensures forall j :: k < j < |s| ==> s[j] != c
    decreases |s|
  {
    if |s| == 0 then -1
    else if s[|s| - 1] == c then |s| - 1
    else LastIndexOf(s[..|s| - 1], c)
  }

  /** Splitting text without a separator yields the text itself as the only part. */
  lemma {:induction false} SplitWithoutSeparator(s: string, sep: char)
    requires sep !in s
    ensures Split(s, sep) == [s]
    decreases |s|
  {
    if |s| > 0 {
      SplitWithoutSeparator(s[1..], sep);
      assert [s[0]] + s[1..] == s;
    }
  }

  /** Splitting at a separator that is followed by no other one: the text after it
      becomes the last part, and the parts before are those of the text before it. */
  lemma {:induction false} SplitAtLastSeparator(s: string, sep: char, t: string)
    requires sep !in t
    ensures Split(s + [sep] + t, sep) == Split(s, sep) + [t]
    decreases |s|
  {
    var u := s + [sep] + t;
    if |s| == 0 {
      assert u == [sep] + t && u[1..] == t;
      SplitWithoutSeparator(t, sep);
    } else {
      assert u[0] == s[0] && u[1..] == s[1..] + [sep] + t;
      SplitAtLastSeparator(s[1..], sep, t);
      var rest := Split(s[1..], sep);
      assert Split(u[1..], sep) == rest + [t];
      if s[0] != sep {
        assert (rest + [t])[0] == rest[0];
        assert (rest + [t])[1..] == rest[1..] + [t];
      }
    }
  }

  /** Joining the parts of a split with the same separator gives back the text. */
  lemma {:induction false} JoinSplit(s: string, sep: char)
    ensures Join(Split(s, sep), sep) == s
    decreases |s|
  {
    if |s| > 0 {
      var rest := Split(s[1..], sep);
      JoinSplit(s[1..], sep);
      if s[0] == sep {
        var parts := [""] + rest;
        assert parts[1..] == rest;
        assert Join(parts, sep) == [sep] + Join(rest, sep);
      } else {
        var parts := [[s[0]] + rest[0]] + rest[1..];
        if |rest| > 1 {
          assert parts[1..] == rest[1..];
          assert Join(rest, sep) == rest[0] + [sep] + Join(rest[1..], sep);
        }
      }
      assert s == [s[0]] + s[1..];
    }
  }

  /** ECMAScript's StrWhiteSpaceChar: the white space and line terminators that
      `parseInt` skips before the number. */
  predicate IsStrWhiteSpace(c: char)
  {
    || c == '\t' || c == '\U{000B}' || c == '\U{000C}' || c == ' ' || c == '\U{00A0}'
    || c == '\U{FEFF}' || c == '\n' || c == '\r' || c == '\U{2028}' || c == '\U{2029}'
    || c == '\U{1680}' || ('\U{2000}' <= c <= '\U{200A}') || c == '\U{202F}'
    || c == '\U{205F}' || c == '\U{3000}'
  }

  /** The text with its leading white space removed. */
  function TrimStart(s: string): (t: string)
    ensures |t| <= |s| && t == s[|s| - |t|..]
    ensures |t| > 0 ==> !IsStrWhiteSpace(t[0])
    ensures forall i :: 0 <= i < |s| - |t| ==> IsStrWhiteSpace(s[i])
    decreases |s|
  {
    if |s| > 0 && IsStrWhiteSpace(s[0]) then TrimStart(s[1..]) else s
  }

  /** Value of `c` as a digit of a radix up to 36 ('0'..'9', then 'a' or 'A' = 10, …),
      or -1 for any other character. */
  function DigitValue(c: char): (d: int)
    ensures -1 <= d < 36
  {
    if '0' <= c <= '9' then c as int - '0' as int
    else if 'a' <= c <= 'z' then c as int - 'a' as int + 10
    else if 'A' <= c <= 'Z' then c as int - 'A' as int + 10
    else -1
  }

  predicate IsDigit(c: char, radix: nat)
  {
    0 <= DigitValue(c) < radix
  }

  /** The longest prefix of `s` made only of digits of `radix`. */
  function DigitPrefix(s: string, radix: nat): (z: string)
    ensures z <= s
    ensures forall i :: 0 <= i < |z| ==> IsDigit(z[i], radix)
    ensures |z| < |s| ==> !IsDigit(s[|z|], radix)
    decreases |s|
  {
    if |s| > 0 && IsDigit(s[0], radix) then [s[0]] + DigitPrefix(s[1..], radix) else ""
  }

  /** The two radixes `parseInt` reads without being given one. */
  type Radix = r: nat | r == 10 || r == 16 witness 10

  /** The number a digit string denotes in `radix`, most significant digit first. */
  function DigitsValue(z: string, radix: Radix): nat
    requires forall i :: 0 <= i < |z| ==> IsDigit(z[i], radix)
    decreases |z|
  {
    if |z| == 0 then 0
    else
      var high := DigitsValue(z[..|z| - 1], radix);
      assert IsDigit(z[|z| - 1], radix);
      var low: nat := DigitValue(z[|z| - 1]);
      if radix == 16 then high * 16 + low else high * 10 + low
  }

  /** "0x" or "0X" at the start: `parseInt` then reads hexadecimal digits after it. */
  predicate HexPrefixed(u: string)
  {
    |u| >= 2 && u[0] == '0' && (u[1] == 'x' || u[1] == 'X')
  }

  /** The number `parseInt` reads once white space and sign are gone: radix 16 after a
      "0x" or "0X" prefix and radix 10 otherwise, the longest run of digits, whatever
      follows it ignored. `None` (NaN) exactly when no digit of that radix comes first. */
  function ParseMagnitude(u: string): (r: Option<nat>)
    ensures r.None? <==> if HexPrefixed(u) then |u| == 2 || !IsDigit(u[2], 16)
                         else |u| == 0 || !IsDigit(u[0], 10)
  {
    var hex := HexPrefixed(u);
    var radix: Radix := if hex then 16 else 10;
    var z := DigitPrefix(if hex then u[2..] else u, radix);
    if |z| == 0 then None else Some(DigitsValue(z, radix))
  }

  /** The text after one optional leading sign. */
  function AfterSign(t: string): string
  {
    if |t| > 0 && (t[0] == '-' || t[0] == '+') then t[1..] else t
  }

  /** A magnitude with the sign that preceded it. */
  function Signed(negative: bool, magnitude: Option<nat>): Option<int>
  {
    match magnitude
    case None => None
    case Some(m) => if negative then Some(0 - m) else Some(m)
  }

  /** What `parseInt` reads from text whose white space is already gone: one optional
      sign, then the magnitude. NaN exactly when the magnitude is NaN; a negative
      number only after a minus sign, and never a positive one after it. */
  function ParseTrimmed(t: string): (r: Option<int>)
    ensures r.None? <==> ParseMagnitude(AfterSign(t)).None?
    ensures r.Some? && r.value < 0 ==> |t| > 0 && t[0] == '-'
    ensures r.Some? && |t| > 0 && t[0] == '-' ==> r.value <= 0
  {
    Signed(|t| > 0 && t[0] == '-', ParseMagnitude(AfterSign(t)))
  }

  /** `parseInt(s)` without a radix: skip leading white space, then read a signed
      magnitude. `None` stands for NaN, which comes exactly when no digit follows the
      white space and the sign. */
  function ParseInt(s: string): (r: Option<int>)
    ensures r.None? <==> ParseMagnitude(AfterSign(TrimStart(s))).None?
  {
    ParseTrimmed(TrimStart(s))
  }

  /** `parseInt(s) || 0`: NaN, like zero, falls back to 0; any other number is kept. */
  function ParseIntOrZero(s: string): (r: int)
    ensures r == 0 <==> ParseInt(s).None? || ParseInt(s) == Some(0)
    ensures r != 0 ==> ParseInt(s) == Some(r)
  {
    match ParseInt(s)
    case None => 0
    case Some(v) => v
  }

  /** Leading white space of any length changes nothing `parseInt` reads. */
  lemma {:induction false} TrimStartSkipsWhiteSpace(w: string, s: string)
    requires forall i :: 0 <= i < |w| ==> IsStrWhiteSpace(w[i])
    ensures TrimStart(w + s) == TrimStart(s)
    decreases |w|
  {
    if |w| > 0 {
      assert (w + s)[0] == w[0] && (w + s)[1..] == w[1..] + s;
      TrimStartSkipsWhiteSpace(w[1..], s);
    } else {
      assert w + s == s;
    }
  }

  /** `parseInt("  \t12")` reads what `parseInt("12")` reads: white space in front of
      the text is ignored. */
  lemma ParseIntSkipsWhiteSpace(w: string, s: string)
    requires forall i :: 0 <= i < |w| ==> IsStrWhiteSpace(w[i])
    ensures ParseInt(w + s) == ParseInt(s)
  {
    TrimStartSkipsWhiteSpace(w, s);
  }

  function DigitChar(d: nat): (c: char)
    requires d < 10
    ensures IsDigit(c, 10) && DigitValue(c) == d
  {
    ('0' as int + d) as char
  }

  /** The decimal text of a whole number that is not negative, without leading zeros. */
  function NatToString(n: nat): (s: string)
    ensures |s| >= 1
    ensures forall i :: 0 <= i < |s| ==> IsDigit(s[i], 10)
    ensures s[0] == '0' <==> n == 0
    decreases n
  {
    if n < 10 then [DigitChar(n)] else NatToString(n / 10) + [DigitChar(n % 10)]
  }

  /** The decimal text a template literal gives a whole number: a minus sign, then the
      digits of its magnitude. */
  function IntToString(i: int): string
  {
    if i < 0 then "-" + NatToString(-i) else NatToString(i)
  }

  /** Reading the decimal digits of `n` back gives `n`. */
  lemma {:induction false} DigitsValueOfNatToString(n: nat)
    ensures DigitsValue(NatToString(n), 10) == n
    decreases n
  {
    if n >= 10 {
      var s := NatToString(n);
      DigitsValueOfNatToString(n / 10);
      assert s[..|s| - 1] == NatToString(n / 10);
    }
  }

  /** The longest digit prefix of digits followed by a non-digit is those digits. */
  lemma {:induction false} DigitPrefixStopsAt(z: string, t: string, radix: nat)
    requires forall i :: 0 <= i < |z| ==> IsDigit(z[i], radix)
    requires |t| == 0 || !IsDigit(t[0], radix)
    ensures DigitPrefix(z + t, radix) == z
    decreases |z|
  {
    if |z| == 0 {
      assert z + t == t;
    } else {
      assert (z + t)[0] == z[0] && (z + t)[1..] == z[1..] + t;
      DigitPrefixStopsAt(z[1..], t, radix);
      assert z == [z[0]] + z[1..];
    }
  }

  /** What ends a number for `parseInt`: the end of the text, or a character that is
      not a decimal digit and cannot turn a leading "0" into the prefix "0x". */
  predicate EndsNumber(t: string)
  {
    |t| == 0 || (!IsDigit(t[0], 10) && t[0] != 'x' && t[0] != 'X')
  }

  /** The decimal digits of `n`, followed by text that ends a number, read as `n`. */
  lemma MagnitudeOfNatToString(n: nat, t: string)
    requires EndsNumber(t)
    ensures ParseMagnitude(NatToString(n) + t) == Some(n)
  {
    var d := NatToString(n);
    var u := d + t;
    DigitsValueOfNatToString(n);
    DigitPrefixStopsAt(d, t, 10);
    assert u[0] == d[0];
    if |u| >= 2 && u[0] == '0' {
      assert |d| == 1;
      assert u[1] == t[0];
    }
  }

  /** Text that does not start with white space is left as it is by the trim. */
  lemma TrimStartUnpadded(s: string)
    requires |s| > 0 && !IsStrWhiteSpace(s[0])
    ensures TrimStart(s) == s
  {
  }

  /** Digits are neither a sign nor white space. */
  lemma DigitIsNotSign(c: char)
    requires IsDigit(c, 10)
    ensures c != '-' && c != '+' && !IsStrWhiteSpace(c)
  {
  }

  /** Text starting with a decimal digit is read as its magnitude. */
  lemma ParseIntOfDigits(u: string, m: nat)
    requires |u| > 0 && IsDigit(u[0], 10) && ParseMagnitude(u) == Some(m)
    ensures ParseInt(u) == Some(m)
  {
    DigitIsNotSign(u[0]);
    assert AfterSign(u) == u;
    TrimStartUnpadded(u);
  }

  /** After a leading minus sign the rest of the text is read as a magnitude. */
  lemma ParseTrimmedOfMinus(u: string)
    ensures ParseTrimmed(['-'] + u) == Signed(true, ParseMagnitude(u))
  {
    var s := ['-'] + u;
    assert s[1..] == u;
    assert AfterSign(s) == u;
  }

  /** A minus sign before text that reads as a magnitude negates it. */
  lemma ParseIntOfMinus(u: string, m: nat)
    requires ParseMagnitude(u) == Some(m)
    ensures ParseInt("-" + u) == Some(0 - m)
  {
    var s := "-" + u;
    assert s[0] == '-' && s[1..] == u;
    TrimStartUnpadded(s);
    assert AfterSign(s) == u;
    assert ParseTrimmed(s) == Signed(true, ParseMagnitude(u));
  }

  /** The text of a negative number, then more text: a minus sign, then the digits
      and the rest. */
  lemma NegativeText(i: int, t: string)
    requires i < 0
    ensures IntToString(i) + t == "-" + (NatToString(-i) + t)
  {
  }

  lemma ParseIntOfNegative(i: int, t: string)
    requires i < 0 && EndsNumber(t)
    ensures ParseInt(IntToString(i) + t) == Some(i)
  {
    var n: nat := -i;
    MagnitudeOfNatToString(n, t);
    ParseIntOfMinus(NatToString(n) + t, n);
    NegativeText(i, t);
  }

  lemma ParseIntOfNonNegative(i: int, t: string)
    requires i >= 0 && EndsNumber(t)
    ensures ParseInt(IntToString(i) + t) == Some(i)
  {
    var d := NatToString(i);
    MagnitudeOfNatToString(i, t);
    assert (d + t)[0] == d[0];
    ParseIntOfDigits(d + t, i);
  }

  /** `parseInt` reads back the decimal text of any whole number, whatever non-numeric
      text follows it ("12px", "3.5", "7e2" give 12, 3 and 7). */
  lemma ParseIntOfIntToString(i: int, t: string)
    requires EndsNumber(t)
    ensures ParseInt(IntToString(i) + t) == Some(i)
    ensures ParseIntOrZero(IntToString(i) + t) == i
  {
    if i < 0 {
      ParseIntOfNegative(i, t);
    } else {
      ParseIntOfNonNegative(i, t);
    }
  }

  /** Text that, after white space and one sign, does not start with a decimal digit
      parses to NaN, which `|| 0` turns into 0. */
  lemma NonNumericIsZero(s: string)
    requires var u := AfterSign(TrimStart(s)); |u| == 0 || !IsDigit(u[0], 10)
    ensures ParseInt(s) == None
    ensures ParseIntOrZero(s) == 0
  {
    var u := AfterSign(TrimStart(s));
    assert DigitPrefix(u, 10) == "";
  }
}
