/**
 * The two pieces of Python 2 string behaviour the scheduler relies on:
 * `str.strip()` (used on completion-log lines) and `int(s)` for base-10
 * strings (used by `Task.complete` on the return code read from the log).
 */
module PyText {
  import opened Wrappers

  /** The characters `str.strip()` removes: space, tab, newline, vertical tab, form feed, carriage return. */
  predicate IsSpace(c: char)
  {
    c == ' ' || '\t' <= c <= '\r'
  }

  predicate IsDigit(c: char)
  {
    '0' <= c <= '9'
  }

  /** A run of whitespace, possibly empty. */
  predicate AllSpaces(w: string)
  {
    w == [] || (IsSpace(w[0]) && AllSpaces(w[1..]))
  }

  /** A non-empty run of ASCII decimal digits. */
  predicate IsDigits(s: string)
  {
    |s| > 0 && forall k :: 0 <= k < |s| ==> IsDigit(s[k])
  }

  /** `s.lstrip()`: the suffix of `s` left once leading whitespace is dropped. */
  function LStrip(s: string): (r: string)
    ensures |r| <= |s| && r == s[|s| - |r|..]
    ensures forall k :: 0 <= k < |s| - |r| ==> IsSpace(s[k])
    ensures r == [] || !IsSpace(r[0])
  {
    if s != [] && IsSpace(s[0]) then LStrip(s[1..]) else s
  }

  /** `s.rstrip()`: the prefix of `s` left once trailing whitespace is dropped. */
  function RStrip(s: string): (r: string)
    ensures |r| <= |s| && r == s[..|r|]
    ensures forall k :: |r| <= k < |s| ==> IsSpace(s[k])
    ensures r == [] || !IsSpace(r[|r| - 1])
  {
    if s != [] && IsSpace(s[|s| - 1]) then RStrip(s[..|s| - 1]) else s
  }

  /** `s.strip()`. */
  function Strip(s: string): string
  {
    RStrip(LStrip(s))
  }

  /** `rstrip()` drops exactly a trailing run of whitespace that follows a non-space character. */
  lemma {:induction false} RStripAfter(p: string, q: string)
    requires p == [] || !IsSpace(p[|p| - 1])
    requires forall k :: 0 <= k < |q| ==> IsSpace(q[k])
    ensures RStrip(p + q) == p
    decreases |q|
  {
    if q == [] {
      assert p + q == p;
    } else {
      var s := p + q;
      assert s[|s| - 1] == q[|q| - 1];
      assert s[..|s| - 1] == p + q[..|q| - 1];
      RStripAfter(p, q[..|q| - 1]);
    }
  }

  /** A string that starts and ends with a non-space character is left alone by `strip()`. */
  lemma StripTrimmed(s: string)
    requires s != [] && !IsSpace(s[0]) && !IsSpace(s[|s| - 1])
    ensures Strip(s) == s
  {
    assert LStrip(s) == s;
  }

  function DigitValue(c: char): nat
    requires IsDigit(c)
  {
    c as int - '0' as int
  }

  /** The number a run of decimal digits denotes, most significant digit first. */
  function DigitsValue(s: string): nat
    requires forall k :: 0 <= k < |s| ==> IsDigit(s[k])
  {
    if s == [] then 0 else 10 * DigitsValue(s[..|s| - 1]) + DigitValue(s[|s| - 1])
  }

  /** The shortest decimal rendering of `n`, as the shell prints `$?`. */
  function Decimal(n: nat): string
  {
    var d := ['0' + (n % 10) as char];
    if n < 10 then d else Decimal(n / 10) + d
  }

  /** Decimal renders a non-empty run of digits that denotes `n` again. */
  lemma {:induction false} DecimalRoundTrip(n: nat)
    ensures IsDigits(Decimal(n)) && DigitsValue(Decimal(n)) == n
    decreases n
  {
    var d := ['0' + (n % 10) as char];
    if n >= 10 {
      DecimalRoundTrip(n / 10);
      var s := Decimal(n);
      assert s == Decimal(n / 10) + d;
      assert s[..|s| - 1] == Decimal(n / 10);
    }
  }

  /**
   * What `PyOS_strtoul` reads after the sign: it skips leading whitespace itself,
   * then needs a digit run that reaches the end.
   */
  function Unsigned(u: string): Option<nat>
  {
    if u != [] && IsSpace(u[0]) then Unsigned(u[1..])
    else if IsDigits(u) then Some(DigitsValue(u))
    else None
  }

  /** `Unsigned` is the value of the digit run `lstrip()` leaves, if it leaves one. */
  lemma {:induction false} UnsignedOfLStrip(u: string)
    ensures Unsigned(u) == if IsDigits(LStrip(u)) then Some(DigitsValue(LStrip(u))) else None
    decreases |u|
  {
    if u != [] && IsSpace(u[0]) {
      UnsignedOfLStrip(u[1..]);
    }
  }

  /**
   * Python 2 `int(s)` for a string: surrounding whitespace is ignored, an optional
   * sign may precede the digits, with whitespace allowed between the sign and the
   * digits; every other string raises `ValueError` (None here).
   */
  function PyInt(s: string): (r: Option<int>)
    ensures r.Some? ==> Strip(s) != []
  {
    var t := Strip(s);
    if t != [] && (t[0] == '-' || t[0] == '+') then
      match Unsigned(t[1..])
      case Some(v) =>
        var i: int := v;
        Some(if t[0] == '-' then -i else i)
      case None => None
    else if IsDigits(t) then Some(DigitsValue(t))
    else None
  }

  /** `int` reads back every number printed in decimal, with a minus sign when negative. */
  lemma PyIntOfDecimal(n: int)
    ensures PyInt(if n < 0 then "-" + Decimal(-n) else Decimal(n)) == Some(n)
  {
    var m: nat := if n < 0 then -n else n;
    var d := Decimal(m);
    DecimalRoundTrip(m);
    if n < 0 {
      assert "-" + d == ['-'] + ("" + d);
      PyIntSigned('-', "", d);
      assert PyInt("-" + d) == Some(n);
    } else {
      PyIntDigits(d);
    }
  }

  /** A bare digit run is read as its value. */
  lemma PyIntDigits(d: string)
    requires IsDigits(d)
    ensures PyInt(d) == Some(DigitsValue(d))
  {
    StripTrimmed(d);
  }

  /** Whitespace between the sign and the digits is skipped: `int("- 1") == -1`. */
  lemma PyIntSpaceAfterSign(w: string, d: string)
    requires AllSpaces(w)
    requires IsDigits(d)
    ensures PyInt("-" + w + d) == Some(-(DigitsValue(d) as int))
    ensures PyInt("+" + w + d) == Some(DigitsValue(d))
  {
    assert "-" + w + d == ['-'] + (w + d);
    assert "+" + w + d == ['+'] + (w + d);
    PyIntSigned('-', w, d);
    PyIntSigned('+', w, d);
  }

  /** A sign, then whitespace, then a digit run, is the signed value of the digits. */
  lemma PyIntSigned(sign: char, w: string, d: string)
    requires sign == '-' || sign == '+'
    requires AllSpaces(w)
    requires IsDigits(d)
    ensures PyInt([sign] + (w + d)) == Some(if sign == '-' then -(DigitsValue(d) as int) else DigitsValue(d))
  {
    var s := [sign] + (w + d);
    assert s[0] == sign && s[1..] == w + d;
    assert s[|s| - 1] == d[|d| - 1];
    UnsignedSpaces(w, d);
    PyIntAfterSign(s, DigitsValue(d));
  }

  /** A stripped string that starts with a sign is read by `Unsigned` after it. */
  lemma PyIntAfterSign(s: string, v: nat)
    requires |s| > 1 && (s[0] == '-' || s[0] == '+') && !IsSpace(s[|s| - 1])
    requires Unsigned(s[1..]) == Some(v)
    ensures PyInt(s) == Some(if s[0] == '-' then -(v as int) else v)
  {
    StripTrimmed(s);
  }

  /** After whitespace, a digit run is read as its value. */
  lemma {:induction false} UnsignedSpaces(w: string, d: string)
    requires AllSpaces(w)
    requires IsDigits(d)
    ensures Unsigned(w + d) == Some(DigitsValue(d))
    decreases |w|
  {
    if w == [] {
      assert w + d == d;
      assert !IsSpace(d[0]);
    } else {
      assert (w + d)[0] == w[0];
      assert (w + d)[1..] == w[1..] + d;
      UnsignedSpaces(w[1..], d);
    }
  }

  /** A string that holds no digit at all is never a number to `int`. */
  lemma PyIntRejectsNonNumeric(s: string)
    requires forall k :: 0 <= k < |s| ==> !IsDigit(s[k])
    ensures PyInt(s) == None
  {
    var l := LStrip(s);
    var t := Strip(s);
    assert forall k :: 0 <= k < |t| ==> t[k] == s[|s| - |l| + k];
    if t != [] && (t[0] == '-' || t[0] == '+') {
      UnsignedOfLStrip(t[1..]);
      var u := LStrip(t[1..]);
      if u != [] {
        assert u[0] == t[|t| - |u|];
        assert !IsDigit(u[0]);
      }
    }
  }
}
