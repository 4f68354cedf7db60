/**
 * String helpers that the generator relies on from the .NET base library:
 * decimal digits, `String.Split(char)`, splitting at the first occurrence of a
 * character, and `String.Replace(pattern, "")`.  Strings are `seq<char>` and
 * comparisons are ordinal, as in the calls being modelled.
 */
module Strings {
  import opened Wrappers

  // ---------------------------------------------------------------------------
  // Decimal digits
  // ---------------------------------------------------------------------------

  predicate IsDigit(c: char) { '0' <= c <= '9' }

  predicate AllDigits(s: string) { forall i :: 0 <= i < |s| ==> IsDigit(s[i]) }

  /** A numeric literal in its canonical form: non-empty, digits only, no leading zero. */
  predicate Canonical(s: string) {
    |s| > 0 && AllDigits(s) && (s[0] == '0' ==> |s| == 1)
  }

  function DigitChar(d: nat): (c: char)
    requires d < 10
    ensures IsDigit(c) && (c as int) - ('0' as int) == d
  {
    (('0' as int) + d) as char
  }

  function DigitValue(c: char): (d: nat)
    requires IsDigit(c)
    ensures d < 10 && DigitChar(d) == c
  {
    (c as int) - ('0' as int)
  }

  /** Decimal rendering of a natural number. */
  function NatToString(n: nat): (r: string)
    ensures Canonical(r)
  {
    if n < 10 then [DigitChar(n)] else NatToString(n / 10) + [DigitChar(n % 10)]
  }

  /** Value of a string of decimal digits (the empty string has value 0). */
  function DigitsToNat(s: string): nat
    requires AllDigits(s)
  {
    if s == [] then 0 else DigitsToNat(s[..|s| - 1]) * 10 + DigitValue(s[|s| - 1])
  }

  lemma {:induction false} DigitsToNatOfNatToString(n: nat)
    ensures DigitsToNat(NatToString(n)) == n
  {
    if n >= 10 {
      var s := NatToString(n);
      assert s[..|s| - 1] == NatToString(n / 10);
      DigitsToNatOfNatToString(n / 10);
    }
  }

  lemma {:induction false} DigitsToNatPositive(s: string)
    requires |s| > 0 && AllDigits(s) && s[0] != '0'
    ensures DigitsToNat(s) > 0
  {
    if |s| > 1 {
      DigitsToNatPositive(s[..|s| - 1]);
    }
  }

  lemma {:induction false} NatToStringOfDigits(s: string)
    requires Canonical(s)
    ensures NatToString(DigitsToNat(s)) == s
  {
    if |s| > 1 {
      var init := s[..|s| - 1];
      var d := DigitValue(s[|s| - 1]);
      DigitsToNatPositive(init);
      NatToStringOfDigits(init);
      var n := DigitsToNat(s);
      assert n == DigitsToNat(init) * 10 + d;
      assert n / 10 == DigitsToNat(init) && n % 10 == d;
      assert s == init + [s[|s| - 1]];
    }
  }

  // ---------------------------------------------------------------------------
  // String.Split(char): always at least one piece; empty pieces are kept
  // ---------------------------------------------------------------------------

  function Split(s: string, c: char): (r: seq<string>)
    ensures |r| > 0
  {
    if s == [] then [""]
    else
      var rest := Split(s[1..], c);
      if s[0] == c then [""] + rest else [[s[0]] + rest[0]] + rest[1..]
  }

  /** `String.Join(c, parts)` */
  function Join(parts: seq<string>, c: char): string
    requires |parts| > 0
  {
    if |parts| == 1 then parts[0] else parts[0] + [c] + Join(parts[1..], c)
  }

  lemma {:induction false} SplitWithout(a: string, c: char)
    requires c !in a
    ensures Split(a, c) == [a]
  {
    if a != [] {
      SplitWithout(a[1..], c);
      assert [a[0]] + a[1..] == a;
    }
  }

  lemma {:induction false} SplitAtFirst(a: string, b: string, c: char)
    requires c !in a
    ensures Split(a + [c] + b, c) == [a] + Split(b, c)
  {
    if a == [] {
      assert a + [c] + b == [c] + b;
      assert ([c] + b)[1..] == b;
    } else {
      assert (a + [c] + b)[1..] == a[1..] + [c] + b;
      SplitAtFirst(a[1..], b, c);
      assert [a[0]] + a[1..] == a;
    }
  }

  /** Splitting a join of pieces that do not contain the separator gives the pieces back. */
  lemma {:induction false} SplitJoin(parts: seq<string>, c: char)
    requires |parts| > 0
    requires forall k :: 0 <= k < |parts| ==> c !in parts[k]
    ensures Split(Join(parts, c), c) == parts
  {
    if |parts| == 1 {
      SplitWithout(parts[0], c);
    } else {
      SplitJoin(parts[1..], c);
      SplitAtFirst(parts[0], Join(parts[1..], c), c);
      assert [parts[0]] + parts[1..] == parts;
    }
  }

  /** A character that is in none of the pieces, and is not the separator, is not in their join. */
  lemma {:induction false} JoinAvoids(parts: seq<string>, c: char, x: char)
    requires |parts| > 0 && x != c
    requires forall k :: 0 <= k < |parts| ==> x !in parts[k]
    ensures x !in Join(parts, c)
  {
    if |parts| > 1 {
      JoinAvoids(parts[1..], c, x);
    }
  }

  /** Joining the pieces of a split gives the string back. */
  lemma {:induction false} JoinSplit(s: string, c: char)
    ensures Join(Split(s, c), c) == s
  {
    if s != [] {
      JoinSplit(s[1..], c);
      var rest := Split(s[1..], c);
      if s[0] == c {
        assert Split(s, c)[1..] == rest;
        assert s == [c] + s[1..];
      } else {
        var r := Split(s, c);
        if |rest| == 1 {
          assert r == [[s[0]] + rest[0]];
          assert s == [s[0]] + s[1..];
        } else {
          assert r[1..] == rest[1..];
          assert Join(rest, c) == rest[0] + [c] + Join(rest[1..], c);
          assert s == [s[0]] + s[1..];
        }
      }
    }
  }

  // ---------------------------------------------------------------------------
  // Cutting at the first occurrence of a character
  // ---------------------------------------------------------------------------

  datatype Cut = Cut(before: string, after: Option<string>)

  /** The text before the first `c` and, when there is one, the text after it. */
  function CutAt(s: string, c: char): (r: Cut)
    ensures c !in r.before
    ensures r.after.None? <==> c !in s
    ensures r.after.None? ==> r.before == s
    ensures r.after.Some? ==> s == r.before + [c] + r.after.value
  {
    if s == [] then Cut(s, None)
    else if s[0] == c then Cut([], Some(s[1..]))
    else
      var r := CutAt(s[1..], c);
      assert s == [s[0]] + s[1..];
      Cut([s[0]] + r.before, r.after)
  }

  lemma {:induction false} CutAtFirst(a: string, b: string, c: char)
    requires c !in a
    ensures CutAt(a + [c] + b, c) == Cut(a, Some(b))
  {
    if a == [] {
      assert a + [c] + b == [c] + b;
      assert ([c] + b)[1..] == b;
    } else {
      assert (a + [c] + b)[1..] == a[1..] + [c] + b;
      CutAtFirst(a[1..], b, c);
      assert [a[0]] + a[1..] == a;
    }
  }

  lemma CutAtNone(a: string, c: char)
    requires c !in a
    ensures CutAt(a, c) == Cut(a, None)
  {
  }

  // ---------------------------------------------------------------------------
  // String.Replace(p, ""): one left-to-right pass removing non-overlapping matches
  // ---------------------------------------------------------------------------

  /** `p` occurs in `s` starting at position `i`. */
  predicate OccursAt(s: string, p: string, i: int) {
    0 <= i && i + |p| <= |s| && s[i..i + |p|] == p
  }

  /** `p` occurs nowhere in `s`. */
  predicate NoMatch(s: string, p: string) { forall i :: 0 <= i <= |s| ==> !OccursAt(s, p, i) }

  function RemoveAll(s: string, p: string): string
    requires |p| > 0
    decreases |s|
  {
    if |s| < |p| then s
    else if s[..|p|] == p then RemoveAll(s[|p|..], p)
    else [s[0]] + RemoveAll(s[1..], p)
  }

  /** A string in which the pattern does not occur is left as it is. */
  lemma {:induction false} RemoveAllAbsent(s: string, p: string)
    requires |p| > 0 && NoMatch(s, p)
    ensures RemoveAll(s, p) == s
  {
    if |s| >= |p| {
      assert !OccursAt(s, p, 0);
      forall i ensures !OccursAt(s[1..], p, i) {
        if OccursAt(s[1..], p, i) {
          assert s[1..][i..i + |p|] == s[i + 1..i + 1 + |p|];
          assert OccursAt(s, p, i + 1);
        }
      }
      RemoveAllAbsent(s[1..], p);
      assert s == [s[0]] + s[1..];
    }
  }

  /** A character of the pattern that is missing from `s` rules out every occurrence. */
  lemma MissingCharNoOccurrence(s: string, p: string, k: nat)
    requires k < |p| && p[k] !in s
    ensures NoMatch(s, p)
  {
    forall i ensures !OccursAt(s, p, i) {
      if 0 <= i && i + |p| <= |s| {
        assert s[i..i + |p|][k] == s[i + k];
      }
    }
  }

  /** With fewer than |p| characters before the seam, those characters are kept. */
  lemma {:induction false} RemoveAllShortHead(a: string, b: string, p: string)
    requires |a| < |p|
    requires a == [] || b == [] || a[|a| - 1] !in p || b[0] !in p
    ensures RemoveAll(a + b, p) == a + RemoveAll(b, p)
    decreases |a|
  {
    if a == [] {
      assert a + b == b;
    } else if b == [] {
      assert a + b == a;
    } else {
      var ab := a + b;
      if |ab| >= |p| {
        assert ab[..|p|][|a| - 1] == a[|a| - 1];
        assert ab[..|p|][|a|] == b[0];
        assert ab[..|p|] != p;
      }
      assert ab[1..] == a[1..] + b;
      RemoveAllShortHead(a[1..], b, p);
      assert a == [a[0]] + a[1..];
    }
  }

  /**
   * Removal distributes over a concatenation when no match can straddle the
   * seam: one of the two characters at the seam is not in the pattern.
   */
  lemma {:induction false} RemoveAllConcat(a: string, b: string, p: string)
    requires |p| > 0
    requires a == [] || b == [] || a[|a| - 1] !in p || b[0] !in p
    ensures RemoveAll(a + b, p) == RemoveAll(a, p) + RemoveAll(b, p)
    decreases |a|
  {
    if |a| < |p| {
      RemoveAllShortHead(a, b, p);
    } else {
      var ab := a + b;
      assert ab[..|p|] == a[..|p|];
      if a[..|p|] == p {
        assert ab[|p|..] == a[|p|..] + b;
        RemoveAllConcat(a[|p|..], b, p);
      } else {
        assert ab[1..] == a[1..] + b;
        RemoveAllConcat(a[1..], b, p);
      }
    }
  }

  /** No proper suffix of `p` is also a prefix of it, so two matches can never overlap. */
  predicate Borderless(p: string) {
    forall m :: 0 < m < |p| ==> p[m..] != p[..|p| - m]
  }

  /** Appending a borderless pattern only adds one match, which the pass removes. */
  lemma {:induction false} RemoveAllBorderlessSuffix(s: string, p: string)
    requires |p| > 0 && Borderless(p)
    ensures RemoveAll(s + p, p) == RemoveAll(s, p)
    decreases |s|
  {
    var sp := s + p;
    if s == [] {
      assert sp == p && sp[..|p|] == p && sp[|p|..] == [];
    } else {
      if |s| >= |p| && s[..|p|] == p {
        assert sp[..|p|] == s[..|p|];
        assert sp[|p|..] == s[|p|..] + p;
        RemoveAllBorderlessSuffix(s[|p|..], p);
      } else {
        if |s| < |p| {
          // a match at position 0 would make p[|s|..] a border of p
          assert sp[..|p|][|s|..] == p[..|p| - |s|];
          assert p[|s|..] != p[..|p| - |s|];
        } else {
          assert sp[..|p|] == s[..|p|];
        }
        assert sp[..|p|] != p;
        assert sp[1..] == s[1..] + p;
        RemoveAllBorderlessSuffix(s[1..], p);
        if |s| < |p| {
          assert s == [s[0]] + s[1..];
        }
      }
    }
  }

  /** A single left-to-right pass: a match formed by joining the text around a removed one is kept. */
  lemma RemoveAllSinglePass()
    ensures RemoveAll(".z.zipip", ".zip") == ".zip"
    ensures !NoMatch(RemoveAll(".z.zipip", ".zip"), ".zip")
  {
    assert RemoveAll("ip", ".zip") == "ip";
    assert ".z.zipip"[2..6] == ".zip";
    assert RemoveAll(".zipip", ".zip") == "ip";
    assert OccursAt(".zip", ".zip", 0);
  }
}
