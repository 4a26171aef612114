/**
 * The JavaScript built-ins the front end relies on, modelled on strings:
 * `parseInt` without a radix argument, `String.prototype.trim`, `split` on a
 * one-character separator, `join`, and the decimal text that a template
 * literal writes for an integer-valued number.
 */
module JsText {

  /** What `parseInt` returns: an integer, or NaN when no digit was found. */
  datatype ParsedInt = Int(value: int) | NaN

  /** ECMAScript's StrWhiteSpaceChar (WhiteSpace and LineTerminator code points):
      the characters `trim` removes and `parseInt` skips. */
  predicate IsJsSpace(c: char) {
    || c == '\t' || c == '\n' || c == '\U{B}' || c == '\U{C}' || c == '\r' || c == ' '
    || c == '\U{A0}' || c == '\U{1680}' || ('\U{2000}' <= c <= '\U{200A}')
    || c == '\U{2028}' || c == '\U{2029}' || c == '\U{202F}' || c == '\U{205F}'
    || c == '\U{3000}' || c == '\U{FEFF}'
  }

  predicate AllSpace(s: string) {
    forall i :: 0 <= i < |s| ==> IsJsSpace(s[i])
  }

  /** Neither end is white space: the shape `trim` leaves behind. */
  predicate IsTrimmed(s: string) {
    s == [] || (!IsJsSpace(s[0]) && !IsJsSpace(s[|s| - 1]))
  }

  /** How many white-space characters `s` starts with. */
  function LeadingSpace(s: string): (n: nat)
    ensures n <= |s|
    ensures forall i :: 0 <= i < n ==> IsJsSpace(s[i])
    ensures n < |s| ==> !IsJsSpace(s[n])
  {
    if s != [] && IsJsSpace(s[0]) then 1 + LeadingSpace(s[1..]) else 0
  }

  /** How many white-space characters `s` ends with. */
  function TrailingSpace(s: string): (n: nat)
    ensures n <= |s|
    ensures forall i :: |s| - n <= i < |s| ==> IsJsSpace(s[i])
    ensures n < |s| ==> !IsJsSpace(s[|s| - n - 1])
  {
    if s != [] && IsJsSpace(s[|s| - 1]) then 1 + TrailingSpace(s[..|s| - 1]) else 0
  }

  /** Drops the leading white space: the suffix that starts at the first non-space. */
  function TrimStart(s: string): string
  {
    s[LeadingSpace(s)..]
  }

  /** Drops the trailing white space: the prefix that ends at the last non-space. */
  function TrimEnd(s: string): string
  {
    s[..|s| - TrailingSpace(s)]
  }

  /** `s.trim()`: white space removed from both ends; empty exactly when `s` is all white space. */
  function Trim(s: string): (r: string)
    ensures IsTrimmed(r)
    ensures r == [] <==> AllSpace(s)
  {
    var t := TrimStart(s);
    var r := TrimEnd(t);
    assert r != [] ==> r[0] == s[LeadingSpace(s)];
    r
  }

  /** The space count is determined by the shape of the string: `a` all white space,
      followed by nothing or by a non-space. */
  lemma TrimStartPadded(a: string, t: string)
    requires AllSpace(a)
    requires t == [] || !IsJsSpace(t[0])
    ensures LeadingSpace(a + t) == |a|
    ensures TrimStart(a + t) == t
  {
    var s := a + t;
    assert forall i :: 0 <= i < |a| ==> s[i] == a[i];
    assert |a| < |s| ==> s[|a|] == t[0];
    assert s[|a|..] == t;
  }

  lemma TrimEndPadded(t: string, b: string)
    requires AllSpace(b)
    requires t == [] || !IsJsSpace(t[|t| - 1])
    ensures TrailingSpace(t + b) == |b|
    ensures TrimEnd(t + b) == t
  {
    var s := t + b;
    assert forall i :: |t| <= i < |s| ==> s[i] == b[i - |t|];
    assert |b| < |s| ==> s[|s| - |b| - 1] == t[|t| - 1];
    assert s[..|t|] == t;
  }

  /** `trim` is the reference characterisation it should be: whatever white space
      surrounds a trimmed string, trimming gives back exactly that string. */
  lemma TrimPadded(a: string, t: string, b: string)
    requires AllSpace(a) && AllSpace(b) && IsTrimmed(t)
    ensures Trim(a + t + b) == t
  {
    if t == [] {
      assert a + t + b == a + b;
      assert AllSpace(a + b);
      TrimStartPadded(a + b, []);
      assert a + b + [] == a + b;
    } else {
      assert a + t + b == a + (t + b);
      TrimStartPadded(a, t + b);
      TrimEndPadded(t, b);
    }
  }

  /** Trimming is idempotent. */
  lemma TrimOfTrimmed(t: string)
    requires IsTrimmed(t)
    ensures Trim(t) == t
  {
    assert [] + t + [] == t;
    TrimPadded([], t, []);
  }

  /** Trimming never introduces a character: every character of `Trim(s)` occurs in `s`. */
  lemma TrimKeepsCharacters(s: string, c: char)
    requires c !in s
    ensures c !in Trim(s)
  {
  }

  /** The white space `TrimStart` drops, in front of what it keeps. */
  lemma LeadingPart(s: string) returns (a: string)
    ensures AllSpace(a) && s == a + TrimStart(s)
  {
    var k := LeadingSpace(s);
    a := s[..k];
    assert forall i :: 0 <= i < |a| ==> a[i] == s[i];
    assert s == s[..k] + s[k..];
  }

  lemma SplitAt(t: string, k: nat)
    requires k <= |t|
    ensures t == t[..k] + t[k..]
  {
  }

  lemma SpaceSuffix(t: string, k: nat)
    requires k <= |t|
    requires forall i :: k <= i < |t| ==> IsJsSpace(t[i])
    ensures AllSpace(t[k..])
  {
    forall i | 0 <= i < |t| - k
      ensures IsJsSpace(t[k..][i])
    {
      assert t[k..][i] == t[k + i];
    }
  }

  /** The white space `TrimEnd` drops, behind what it keeps. */
  lemma TrailingPart(t: string) returns (b: string)
    ensures AllSpace(b) && t == TrimEnd(t) + b
  {
    var k := |t| - TrailingSpace(t);
    b := t[k..];
    SpaceSuffix(t, k);
    SplitAt(t, k);
  }

  /** What `trim` removes: white space before and after what it keeps. */
  lemma TrimParts(s: string) returns (a: string, b: string)
    ensures AllSpace(a) && AllSpace(b)
    ensures s == a + Trim(s) + b
  {
    a := LeadingPart(s);
    var t := TrimStart(s);
    b := TrailingPart(t);
    assert Trim(s) == TrimEnd(t);
    assert s == a + (Trim(s) + b);
    assert a + (Trim(s) + b) == a + Trim(s) + b;
  }

  /** White space added around a string does not change what `trim` returns. */
  lemma TrimIgnoresSpace(a: string, p: string, b: string)
    requires AllSpace(a) && AllSpace(b)
    ensures Trim(a + p + b) == Trim(p)
  {
    var a2, b2 := TrimParts(p);
    assert a + p + b == (a + a2) + Trim(p) + (b2 + b);
    assert AllSpace(a + a2) && AllSpace(b2 + b);
    TrimPadded(a + a2, Trim(p), b2 + b);
  }

  /** `s.split(sep)` for a one-character separator: the pieces between separators,
      always at least one, none containing the separator, and joining them back
      with the separator restores `s`. */
  function Split(s: string, sep: char): (parts: seq<string>)
    ensures |parts| >= 1
    ensures forall i :: 0 <= i < |parts| ==> sep !in parts[i]
    ensures Join(parts, [sep]) == s
    decreases |s|
  {
    if s == [] then
      [[]]
    else
      var rest := Split(s[1..], sep);
      if s[0] == sep then
        var parts := [[]] + rest;
        assert parts[1..] == rest;
        assert s == [sep] + s[1..];
        parts
      else
        var parts := [[s[0]] + rest[0]] + rest[1..];
        assert forall i :: 1 <= i < |parts| ==> parts[i] == rest[i];
        assert |rest| > 1 ==> parts[1..] == rest[1..];
        assert s == [s[0]] + s[1..];
        parts
  }

  /** `parts.join(sep)`. */
  function Join(parts: seq<string>, sep: string): string
  {
    if parts == [] then []
    else if |parts| == 1 then parts[0]
    else parts[0] + sep + Join(parts[1..], sep)
  }

  /** Text put before the first piece ends up in the first piece. */
  lemma JoinFront(x: string, parts: seq<string>, sep: string)
    requires |parts| >= 1
    ensures Join([x + parts[0]] + parts[1..], sep) == x + Join(parts, sep)
  {
    var q := [x + parts[0]] + parts[1..];
    assert q[1..] == parts[1..];
  }

  /** Text put after the last piece ends up in the last piece. */
  lemma {:induction false} JoinBack(parts: seq<string>, y: string, sep: string)
    requires |parts| >= 1
    ensures Join(parts[..|parts| - 1] + [parts[|parts| - 1] + y], sep) == Join(parts, sep) + y
    decreases |parts|
  {
    var n := |parts|;
    var q := parts[..n - 1] + [parts[n - 1] + y];
    if n > 1 {
      var rest := parts[1..];
      assert q[0] == parts[0];
      assert q[1..] == rest[..|rest| - 1] + [rest[|rest| - 1] + y];
      JoinBack(rest, y, sep);
    }
  }

  /** The pieces with `a` put before the first and `b` after the last. */
  function PadEnds(parts: seq<string>, a: string, b: string): (q: seq<string>)
    requires |parts| >= 1
    ensures |q| == |parts|
  {
    var front := [a + parts[0]] + parts[1..];
    front[..|front| - 1] + [front[|front| - 1] + b]
  }

  /** Piece `i` after padding: `a` in front of the first piece, `b` behind the last. */
  lemma PadEndsAt(parts: seq<string>, a: string, b: string, i: int)
    requires 0 <= i < |parts|
    ensures PadEnds(parts, a, b)[i] ==
      (if i == 0 then a else []) + parts[i] + (if i == |parts| - 1 then b else [])
  {
    var front := [a + parts[0]] + parts[1..];
    assert front[i] == (if i == 0 then a else []) + parts[i];
  }

  /** Splitting `a + t + b`, where `a` and `b` hold no separator, gives the pieces of `t` with
      `a` stuck to the first and `b` to the last. */
  lemma SplitPadEnds(a: string, t: string, b: string, sep: char)
    requires sep !in a && sep !in b
    ensures Split(a + t + b, sep) == PadEnds(Split(t, sep), a, b)
  {
    var p := Split(t, sep);
    var front := [a + p[0]] + p[1..];
    var q := PadEnds(p, a, b);
    JoinFront(a, p, [sep]);
    JoinBack(front, b, [sep]);
    assert Join(q, [sep]) == a + t + b;
    forall i | 0 <= i < |q| ensures sep !in q[i] {
      assert sep !in front[i];
    }
    SplitJoin(q, sep);
  }

  lemma {:induction false} SplitWithout(s: string, sep: char)
    requires sep !in s
    ensures Split(s, sep) == [s]
    decreases |s|
  {
    if s != [] {
      SplitWithout(s[1..], sep);
      assert [s[0]] + s[1..] == s;
    }
  }

  lemma {:induction false} SplitAfterPiece(a: string, sep: char, t: string)
    requires sep !in a
    ensures Split(a + [sep] + t, sep) == [a] + Split(t, sep)
    decreases |a|
  {
    var s := a + [sep] + t;
    if a == [] {
      assert s[1..] == t;
    } else {
      assert s[1..] == a[1..] + [sep] + t;
      SplitAfterPiece(a[1..], sep, t);
      assert [a[0]] + a[1..] == a;
    }
  }

  /** Splitting what was joined gives the pieces back, provided no piece holds the separator. */
  lemma {:induction false} SplitJoin(parts: seq<string>, sep: char)
    requires |parts| >= 1
    requires forall i :: 0 <= i < |parts| ==> sep !in parts[i]
    ensures Split(Join(parts, [sep]), sep) == parts
    decreases |parts|
  {
    if |parts| == 1 {
      SplitWithout(parts[0], sep);
    } else {
      SplitJoin(parts[1..], sep);
      SplitAfterPiece(parts[0], sep, Join(parts[1..], [sep]));
      assert [parts[0]] + parts[1..] == parts;
    }
  }

  predicate IsDecimalDigit(c: char) {
    '0' <= c <= '9'
  }

  /** A digit of the given radix (10, or 16 after a `0x` prefix). */
  predicate IsDigit(c: char, radix: nat) {
    IsDecimalDigit(c) || (radix == 16 && (('a' <= c <= 'f') || ('A' <= c <= 'F')))
  }

  function DigitValue(c: char): nat {
    if '0' <= c <= '9' then c as int - '0' as int
    else if 'a' <= c <= 'f' then c as int - 'a' as int + 10
    else if 'A' <= c <= 'F' then c as int - 'A' as int + 10
    else 0
  }

  /** Length of the longest prefix made of digits of `radix`. */
  function DigitRun(s: string, radix: nat): (n: nat)
    ensures n <= |s|
    ensures forall i :: 0 <= i < n ==> IsDigit(s[i], radix)
    ensures n < |s| ==> !IsDigit(s[n], radix)
  {
    if s != [] && IsDigit(s[0], radix) then 1 + DigitRun(s[1..], radix) else 0
  }

  /** The number a string of digits denotes, most significant digit first. */
  function DigitsValue(s: string, radix: nat): nat {
    if s == [] then 0 else DigitsValue(s[..|s| - 1], radix) * radix + DigitValue(s[|s| - 1])
  }

  /** The unsigned part of `parseInt`: after `0x` or `0X` the digits are read in radix 16,
      otherwise in radix 10; the longest run of digits is read, and an empty run is NaN. */
  function ParseMagnitude(u: string): ParsedInt
  {
    var hex := |u| >= 2 && u[0] == '0' && (u[1] == 'x' || u[1] == 'X');
    var radix := if hex then 16 else 10;
    var digits := if hex then u[2..] else u;
    var n := DigitRun(digits, radix);
    if n == 0 then NaN else Int(DigitsValue(digits[..n], radix))
  }

  /** `parseInt` once the leading white space is gone: an optional sign, then the magnitude. */
  function ParseSigned(t: string): ParsedInt
  {
    if t != [] && t[0] == '-' then
      match ParseMagnitude(t[1..])
      case Int(v) => Int(-v)
      case NaN => NaN
    else if t != [] && t[0] == '+' then ParseMagnitude(t[1..])
    else ParseMagnitude(t)
  }

  /** `parseInt(s)` with no radix: leading white space skipped, then a signed magnitude. */
  function ParseInt(s: string): ParsedInt
  {
    if s != [] && IsJsSpace(s[0]) then ParseInt(s[1..]) else ParseSigned(s)
  }

  function DigitChar(d: nat): char
    requires d < 10
  {
    ('0' as int + d) as char
  }

  /** The decimal digits of `n`: at least one, no leading zero, and denoting `n`. */
  function NatString(n: nat): (s: string)
    ensures |s| >= 1
    ensures forall i :: 0 <= i < |s| ==> IsDecimalDigit(s[i])
    ensures s[0] == '0' ==> s == "0"
    ensures DigitsValue(s, 10) == n
  {
    if n < 10 then
      [DigitChar(n)]
    else
      var s := NatString(n / 10) + [DigitChar(n % 10)];
      assert s[..|s| - 1] == NatString(n / 10);
      s
  }

  /** `${n}` for an integer-valued number `n`, assuming |n| < 10^21 so that JavaScript does not use exponent form. */
  function IntString(n: int): string
  {
    if n < 0 then "-" + NatString(-n) else NatString(n)
  }

  lemma {:induction false} DigitRunOfDigits(d: string, tail: string)
    requires forall i :: 0 <= i < |d| ==> IsDecimalDigit(d[i])
    requires tail == [] || !IsDigit(tail[0], 10)
    ensures DigitRun(d + tail, 10) == |d|
    decreases |d|
  {
    if d == [] {
      assert d + tail == tail;
    } else {
      assert (d + tail)[1..] == d[1..] + tail;
      DigitRunOfDigits(d[1..], tail);
    }
  }

  lemma MagnitudeOfDigits(d: string, tail: string)
    requires |d| >= 1 && forall i :: 0 <= i < |d| ==> IsDecimalDigit(d[i])
    requires d[0] == '0' ==> d == "0"
    requires tail == [] || !(IsDecimalDigit(tail[0]) || tail[0] == 'x' || tail[0] == 'X')
    ensures ParseMagnitude(d + tail) == Int(DigitsValue(d, 10))
  {
    var u := d + tail;
    assert |u| >= 2 && u[0] == '0' ==> u[1] == tail[0];
    DigitRunOfDigits(d, tail);
    assert u[..|d|] == d;
  }

  /** `parseInt` reads back the integer that `${n}` wrote, whatever white space precedes it
      and whatever non-digit follows it (a decimal point, a unit, nothing). */
  lemma NegativeOfIntString(m: nat, tail: string)
    requires m > 0
    requires tail == [] || !(IsDecimalDigit(tail[0]) || tail[0] == 'x' || tail[0] == 'X')
    ensures ParseSigned("-" + NatString(m) + tail) == Int(-(m as int))
  {
    var d := NatString(m);
    MagnitudeOfDigits(d, tail);
    NegatedMagnitude(d + tail, m);
    assert "-" + d + tail == "-" + (d + tail);
  }

  /** A minus sign in front of a magnitude negates it. */
  lemma NegatedMagnitude(u: string, v: nat)
    requires ParseMagnitude(u) == Int(v)
    ensures ParseSigned("-" + u) == Int(-(v as int))
  {
    var t := "-" + u;
    assert t[0] == '-' && t[1..] == u;
  }

  lemma SignedOfIntString(n: int, tail: string)
    requires tail == [] || !(IsDecimalDigit(tail[0]) || tail[0] == 'x' || tail[0] == 'X')
    ensures ParseSigned(IntString(n) + tail) == Int(n)
  {
    if n < 0 {
      NegativeOfIntString(-n, tail);
      assert IntString(n) + tail == "-" + NatString(-n) + tail;
    } else {
      var d := NatString(n);
      MagnitudeOfDigits(d, tail);
      assert (d + tail)[0] == d[0];
    }
  }

  /** `parseInt` skips exactly the leading white space: it reads what follows it. */
  lemma {:induction false} ParseIntAfterSpace(ws: string, t: string)
    requires AllSpace(ws)
    requires t == [] || !IsJsSpace(t[0])
    ensures ParseInt(ws + t) == ParseSigned(t)
    decreases |ws|
  {
    if ws != [] {
      assert (ws + t)[1..] == ws[1..] + t;
      ParseIntAfterSpace(ws[1..], t);
    } else {
      assert ws + t == t;
    }
  }

  lemma ParseIntOfIntString(ws: string, n: int, tail: string)
    requires AllSpace(ws)
    requires tail == [] || !(IsDecimalDigit(tail[0]) || tail[0] == 'x' || tail[0] == 'X')
    ensures ParseInt(ws + IntString(n) + tail) == Int(n)
  {
    var core := IntString(n) + tail;
    assert ws + IntString(n) + tail == ws + core;
    assert core[0] == IntString(n)[0];
    ParseIntAfterSpace(ws, core);
    SignedOfIntString(n, tail);
  }

  lemma ParseIntNoDigits(s: string)
    requires forall i :: 0 <= i < |s| ==> !IsDecimalDigit(s[i])
    ensures ParseInt(s) == NaN
  {
    var n := LeadingSpace(s);
    var t := s[n..];
    assert s == s[..n] + t;
    ParseIntAfterSpace(s[..n], t);
    assert forall i :: 0 <= i < |t| ==> !IsDecimalDigit(t[i]) by {
      forall i | 0 <= i < |t| ensures !IsDecimalDigit(t[i]) {
        assert t[i] == s[n + i];
      }
    }
    var u := if t != [] && (t[0] == '-' || t[0] == '+') then t[1..] else t;
    assert u != [] ==> !IsDecimalDigit(u[0]);
  }
}
