/**
 * The handful of string operations the Python and JavaScript code relies on:
 * substring tests (`in`, `includes`), `"sep".join`, ASCII lower-casing,
 * `rstrip` of one character, and `sorted` on a collection of strings
 * (code-point lexicographic order, duplicates collapsed as in a set).
 */
module Strings {

  /** `s.startswith(p)`. */
  predicate IsPrefix(p: string, s: string) {
    |p| <= |s| && s[..|p|] == p
  }

  /** `sub in s` (Python), `s.includes(sub)` (JavaScript). */
  predicate Contains(s: string, sub: string) {
    exists i :: 0 <= i <= |s| - |sub| && IsPrefix(sub, s[i..])
  }

  lemma ContainsAt(s: string, sub: string, i: int)
    requires 0 <= i <= |s| - |sub| && s[i..i + |sub|] == sub
    ensures Contains(s, sub)
  {
    assert IsPrefix(sub, s[i..]);
  }

  lemma ContainsInLeft(a: string, b: string, sub: string)
    requires Contains(a, sub)
    ensures Contains(a + b, sub)
  {
    var i :| 0 <= i <= |a| - |sub| && IsPrefix(sub, a[i..]);
    assert (a + b)[i..i + |sub|] == a[i..i + |sub|];
    ContainsAt(a + b, sub, i);
  }

  lemma ContainsInRight(a: string, b: string, sub: string)
    requires Contains(b, sub)
    ensures Contains(a + b, sub)
  {
    var i :| 0 <= i <= |b| - |sub| && IsPrefix(sub, b[i..]);
    assert (a + b)[|a| + i..|a| + i + |sub|] == b[i..i + |sub|];
    ContainsAt(a + b, sub, |a| + i);
  }

  lemma ContainsItself(s: string)
    ensures Contains(s, s)
  {
    ContainsAt(s, s, 0);
  }

  /** An occurrence of `sub` in `a + [c] + b` that does not contain `c` lies in `a` or in `b`. */
  lemma ContainsAcrossSeparator(a: string, c: char, b: string, sub: string)
    requires c !in sub
    requires Contains(a + [c] + b, sub)
    ensures Contains(a, sub) || Contains(b, sub)
  {
    var s := a + [c] + b;
    var i :| 0 <= i <= |s| - |sub| && IsPrefix(sub, s[i..]);
    assert s[i..i + |sub|] == sub;
    assert forall t :: i <= t < i + |sub| ==> s[t] == sub[t - i];
    assert s[|a|] == c;
    assert !(i <= |a| < i + |sub|);
    if i + |sub| <= |a| {
      assert a[i..i + |sub|] == s[i..i + |sub|];
      ContainsAt(a, sub, i);
    } else if i > |a| {
      assert s[|a| + 1..] == b;
      assert b[i - |a| - 1..i - |a| - 1 + |sub|] == s[|a| + 1..][i - |a| - 1..i - |a| - 1 + |sub|];
      ContainsAt(b, sub, i - |a| - 1);
    }
  }

  /** `sep.join(parts)`. */
  function Join(parts: seq<string>, sep: string): string {
    if |parts| == 0 then ""
    else if |parts| == 1 then parts[0]
    else parts[0] + sep + Join(parts[1..], sep)
  }

  lemma JoinTwo(a: string, b: string, sep: string)
    ensures Join([a, b], sep) == a + sep + b
  {
    assert [a, b][1..] == [b];
  }

  /**
   * A text that contains neither the separator character nor is empty occurs
   * in the joined string exactly when it occurs in one of the parts.
   */
  lemma ContainsInJoin(parts: seq<string>, c: char, sub: string)
    requires sub != "" && c !in sub
    ensures Contains(Join(parts, [c]), sub) <==> exists j :: 0 <= j < |parts| && Contains(parts[j], sub)
  {
    if Contains(Join(parts, [c]), sub) {
      JoinOccurrenceInPart(parts, c, sub);
    }
    if exists j :: 0 <= j < |parts| && Contains(parts[j], sub) {
      var j :| 0 <= j < |parts| && Contains(parts[j], sub);
      PartOccurrenceInJoin(parts, c, sub, j);
    }
  }

  lemma {:induction false} JoinOccurrenceInPart(parts: seq<string>, c: char, sub: string)
    requires sub != "" && c !in sub
    requires Contains(Join(parts, [c]), sub)
    ensures exists j :: 0 <= j < |parts| && Contains(parts[j], sub)
  {
    if |parts| == 1 {
      assert Contains(parts[0], sub);
    } else if |parts| > 1 {
      var rest := Join(parts[1..], [c]);
      assert Join(parts, [c]) == parts[0] + [c] + rest;
      ContainsAcrossSeparator(parts[0], c, rest, sub);
      if Contains(rest, sub) {
        JoinOccurrenceInPart(parts[1..], c, sub);
        var j :| 0 <= j < |parts[1..]| && Contains(parts[1..][j], sub);
        assert Contains(parts[j + 1], sub);
      } else {
        assert Contains(parts[0], sub);
      }
    }
  }

  lemma {:induction false} PartOccurrenceInJoin(parts: seq<string>, c: char, sub: string, j: int)
    requires 0 <= j < |parts| && Contains(parts[j], sub)
    ensures Contains(Join(parts, [c]), sub)
  {
    if |parts| > 1 {
      var rest := Join(parts[1..], [c]);
      assert Join(parts, [c]) == parts[0] + [c] + rest;
      if j == 0 {
        ContainsInLeft(parts[0], [c] + rest, sub);
        assert parts[0] + ([c] + rest) == Join(parts, [c]);
      } else {
        assert parts[1..][j - 1] == parts[j];
        PartOccurrenceInJoin(parts[1..], c, sub, j - 1);
        ContainsInRight(parts[0] + [c], rest, sub);
      }
    }
  }

  /** ASCII lower-casing of one character. */
  function LowerChar(c: char): char {
    if 'A' <= c <= 'Z' then (c as int + 32) as char else c
  }

  /** `s.lower()`, restricted to ASCII letters. */
  function Lower(s: string): (r: string)
    ensures |r| == |s|
  {
    seq(|s|, i requires 0 <= i < |s| => LowerChar(s[i]))
  }

  function LowerAll(parts: seq<string>): (r: seq<string>)
    ensures |r| == |parts|
  {
    seq(|parts|, i requires 0 <= i < |parts| => Lower(parts[i]))
  }

  lemma LowerAppend(a: string, b: string)
    ensures Lower(a + b) == Lower(a) + Lower(b)
  {
  }

  /** Lower-casing the joined text is joining the lower-cased parts. */
  lemma {:induction false} LowerJoin(parts: seq<string>, sep: string)
    ensures Lower(Join(parts, sep)) == Join(LowerAll(parts), Lower(sep))
  {
    if |parts| > 1 {
      LowerJoin(parts[1..], sep);
      assert LowerAll(parts[1..]) == LowerAll(parts)[1..];
      LowerAppend(parts[0] + sep, Join(parts[1..], sep));
      LowerAppend(parts[0], sep);
    }
  }

  /** `s.rstrip(c)`: every trailing `c` removed. */
  function RStrip(s: string, c: char): (r: string)
    ensures IsPrefix(r, s)
    ensures r == [] || r[|r| - 1] != c
    ensures forall i :: |r| <= i < |s| ==> s[i] == c
  {
    if |s| > 0 && s[|s| - 1] == c then RStrip(s[..|s| - 1], c) else s
  }

  /** Python's `<` on `str`: lexicographic by code point, a proper prefix first. */
  predicate Less(a: string, b: string)
    decreases |a|
  {
    if |a| == 0 then |b| > 0
    else if |b| == 0 then false
    else if a[0] != b[0] then a[0] < b[0]
    else Less(a[1..], b[1..])
  }

  lemma {:induction false} LessIrreflexive(a: string)
    ensures !Less(a, a)
  {
    if |a| > 0 {
      LessIrreflexive(a[1..]);
    }
  }

  lemma {:induction false} LessTransitive(a: string, b: string, c: string)
    requires Less(a, b) && Less(b, c)
    ensures Less(a, c)
  {
    if |a| > 0 && |b| > 0 && |c| > 0 && a[0] == b[0] == c[0] {
      LessTransitive(a[1..], b[1..], c[1..]);
    }
  }

  lemma {:induction false} LessTotal(a: string, b: string)
    ensures a == b || Less(a, b) || Less(b, a)
  {
    if |a| > 0 && |b| > 0 && a[0] == b[0] {
      LessTotal(a[1..], b[1..]);
      if a[1..] == b[1..] {
        assert a == [a[0]] + a[1..] && b == [b[0]] + b[1..];
      }
    }
  }

  predicate StrictlySorted(s: seq<string>) {
    forall i, j :: 0 <= i < j < |s| ==> Less(s[i], s[j])
  }

  /** Inserts `x` into a strictly sorted sequence, unless it is already there. */
  function Insert(x: string, s: seq<string>): (r: seq<string>)
    requires StrictlySorted(s)
    ensures StrictlySorted(r)
    ensures forall y :: y in r <==> y == x || y in s
  {
    if |s| == 0 then [x]
    else if x == s[0] then s
    else if Less(x, s[0]) then
      assert forall j :: 0 < j < |s| ==> Less(x, s[j]) by {
        forall j | 0 < j < |s| ensures Less(x, s[j]) {
          LessTransitive(x, s[0], s[j]);
        }
      }
      [x] + s
    else
      LessTotal(x, s[0]);
      var t := Insert(x, s[1..]);
      assert forall y :: y in t ==> Less(s[0], y);
      [s[0]] + t
  }

  /** `sorted(set(xs))`: the distinct elements of `xs` in increasing order. */
  function SortedSet(xs: seq<string>): (r: seq<string>)
    ensures StrictlySorted(r)
    ensures forall y :: y in r <==> y in xs
  {
    if |xs| == 0 then [] else Insert(xs[0], SortedSet(xs[1..]))
  }

  /** A strictly sorted sequence is determined by its elements: `sorted` of a set is unique. */
  lemma {:induction false} SortedByElements(a: seq<string>, b: seq<string>)
    requires StrictlySorted(a) && StrictlySorted(b)
    requires forall y :: y in a <==> y in b
    ensures a == b
  {
    assert |a| > 0 ==> a[0] in b;
    assert |b| > 0 ==> b[0] in a;
    if |a| == 0 || |b| == 0 {
    } else {
      if a[0] != b[0] {
        assert b[0] in a && a[0] in b;
        var k :| 0 <= k < |a| && a[k] == b[0];
        var m :| 0 <= m < |b| && b[m] == a[0];
        assert Less(a[0], b[0]);
        assert Less(b[0], a[0]);
        LessTransitive(a[0], b[0], a[0]);
        LessIrreflexive(a[0]);
      }
      forall y ensures y in a[1..] <==> y in b[1..] {
        if y in a[1..] {
          var k :| 1 <= k < |a| && a[k] == y;
          LessIrreflexive(y);
          assert y != b[0];
          assert y in a && y in b;
          var m :| 0 <= m < |b| && b[m] == y;
          assert b[1..][m - 1] == y;
        }
        if y in b[1..] {
          var k :| 1 <= k < |b| && b[k] == y;
          LessIrreflexive(y);
          assert y != a[0];
          assert y in b && y in a;
          var m :| 0 <= m < |a| && a[m] == y;
          assert a[1..][m - 1] == y;
        }
      }
      SortedByElements(a[1..], b[1..]);
      assert a == [a[0]] + a[1..] && b == [b[0]] + b[1..];
    }
  }

  function DigitChar(d: nat): char
    requires d < 10
  {
    ('0' as int + d) as char
  }

  predicate AllDigits(s: string) {
    forall i :: 0 <= i < |s| ==> '0' <= s[i] <= '9'
  }

  /** The number a string of decimal digits denotes, read left to right. */
  function DecimalValue(s: string): nat
    requires AllDigits(s)
  {
    if |s| == 0 then 0 else DecimalValue(s[..|s| - 1]) * 10 + (s[|s| - 1] as int - '0' as int)
  }

  /**
   * The decimal rendering of a natural number, as JavaScript's string
   * conversion writes it: digits only, no leading zero, denoting `n`.
   */
  function NatToDecimal(n: nat): (r: string)
    ensures |r| > 0 && AllDigits(r)
    ensures r[0] == '0' <==> n == 0
    ensures DecimalValue(r) == n
  {
    if n < 10 then [DigitChar(n)]
    else
      var r := NatToDecimal(n / 10) + [DigitChar(n % 10)];
      assert r[..|r| - 1] == NatToDecimal(n / 10);
      r
  }
}
