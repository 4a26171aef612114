/**
 * The order `Array.prototype.sort()` uses when it is given no comparator:
 * strings compared character by character, a proper prefix first. JavaScript
 * compares UTF-16 code units; on text without characters above U+FFFF these
 * are the characters compared here.
 */
module LexOrder {

  predicate Less(a: string, b: string)
    decreases |a|
  {
    if a == [] then b != []
    else if b == [] then false
    else if a[0] != b[0] then a[0] < b[0]
    else Less(a[1..], b[1..])
  }

  predicate LessEq(a: string, b: string) {
    a == b || Less(a, b)
  }

  lemma {:induction false} Irreflexive(a: string)
    ensures !Less(a, a)
    decreases |a|
  {
    if a != [] {
      Irreflexive(a[1..]);
    }
  }

  lemma {:induction false} Transitive(a: string, b: string, c: string)
    requires Less(a, b) && Less(b, c)
    ensures Less(a, c)
    decreases |a|
  {
    if a != [] && a[0] == b[0] && b[0] == c[0] {
      Transitive(a[1..], b[1..], c[1..]);
    }
  }

  /** Any two different strings are ordered one way or the other. */
  lemma {:induction false} Connected(a: string, b: string)
    requires a != b
    ensures Less(a, b) || Less(b, a)
    decreases |a|
  {
    if a != [] && b != [] && a[0] == b[0] {
      assert a == [a[0]] + a[1..] && b == [b[0]] + b[1..];
      Connected(a[1..], b[1..]);
    }
  }

  lemma Asymmetric(a: string, b: string)
    requires Less(a, b)
    ensures !Less(b, a)
  {
    if Less(b, a) {
      Transitive(a, b, a);
      Irreflexive(a);
    }
  }

  lemma LessEqTransitive(a: string, b: string, c: string)
    requires LessEq(a, b) && LessEq(b, c)
    ensures LessEq(a, c)
  {
    if a != b && b != c {
      Transitive(a, b, c);
    }
  }

  lemma LessEqAntisymmetric(a: string, b: string)
    requires LessEq(a, b) && LessEq(b, a)
    ensures a == b
  {
    if a != b {
      Asymmetric(a, b);
    }
  }

  /** Comparing two strings that start with blocks of the same width: the first blocks decide,
      and only when they are equal do the rests. */
  lemma {:induction false} LessAppend(x1: string, r1: string, x2: string, r2: string)
    requires |x1| == |x2|
    ensures Less(x1 + r1, x2 + r2) == (Less(x1, x2) || (x1 == x2 && Less(r1, r2)))
    decreases |x1|
  {
    if x1 == [] {
      assert x1 + r1 == r1 && x2 + r2 == r2;
    } else {
      assert (x1 + r1)[1..] == x1[1..] + r1;
      assert (x2 + r2)[1..] == x2[1..] + r2;
      LessAppend(x1[1..], r1, x2[1..], r2);
      assert x1 == [x1[0]] + x1[1..] && x2 == [x2[0]] + x2[1..];
      if x1[0] != x2[0] {
        assert !Less(x1[1..], x2[1..]) || x1 != x2;
      }
    }
  }

  /** A strictly ascending sequence: what sorting a set of distinct strings produces. */
  predicate StrictlyAscending(s: seq<string>) {
    forall i, j :: 0 <= i < j < |s| ==> Less(s[i], s[j])
  }

  lemma AscendingAt(s: seq<string>, i: int, j: int)
    requires StrictlyAscending(s)
    requires 0 <= i <= j < |s|
    ensures LessEq(s[i], s[j])
  {
  }

  /** A strictly ascending sequence is determined by its elements: however a set of dates is
      first listed, sorting it can only give one answer. */
  lemma {:induction false} AscendingUnique(a: seq<string>, b: seq<string>)
    requires StrictlyAscending(a) && StrictlyAscending(b)
    requires forall x :: x in a <==> x in b
    ensures a == b
    decreases |a|
  {
    assert a != [] ==> a[0] in a;
    assert b != [] ==> b[0] in b;
    if a != [] && b != [] {
      if a[0] != b[0] {
        assert b[0] in a;
        var i :| 0 <= i < |a| && a[i] == b[0];
        assert a[0] in b;
        var j :| 0 <= j < |b| && b[j] == a[0];
        assert Less(a[0], a[i]) && Less(b[0], b[j]);
        Asymmetric(a[0], b[0]);
        assert false;
      }
      forall x
        ensures x in a[1..] <==> x in b[1..]
      {
        if x in a[1..] {
          var i :| 1 <= i < |a| && a[i] == x;
          Irreflexive(x);
          assert x in a;
          var k :| 0 <= k < |b| && b[k] == x;
          assert k != 0;
          assert b[1..][k - 1] == x;
        }
        if x in b[1..] {
          var i :| 1 <= i < |b| && b[i] == x;
          Irreflexive(x);
          assert x in b;
          var k :| 0 <= k < |a| && a[k] == x;
          assert k != 0;
          assert a[1..][k - 1] == x;
        }
      }
      AscendingUnique(a[1..], b[1..]);
      assert a == [a[0]] + a[1..] && b == [b[0]] + b[1..];
    }
  }

  /** Puts a new string in its place in a strictly ascending sequence. */
  function Insert(s: seq<string>, x: string): (r: seq<string>)
    requires StrictlyAscending(s)
    requires x !in s
    ensures StrictlyAscending(r)
    ensures forall y :: y in r <==> y in s || y == x
    ensures |r| == |s| + 1
  {
    if s == [] then
      [x]
    else if Less(x, s[0]) then
      var r := [x] + s;
      assert forall j :: 1 <= j < |r| ==> LessEq(s[0], r[j]);
      forall j | 1 <= j < |r| ensures Less(x, r[j]) {
        LessEqTransitive(x, s[0], r[j]);
      }
      r
    else
      Connected(x, s[0]);
      var rest := Insert(s[1..], x);
      var r := [s[0]] + rest;
      forall j | 1 <= j < |r| ensures Less(s[0], r[j]) {
        assert r[j] in rest;
        if r[j] != x {
          var k :| 0 <= k < |s[1..]| && s[1..][k] == r[j];
        }
      }
      assert s == [s[0]] + s[1..];
      r
  }
}
