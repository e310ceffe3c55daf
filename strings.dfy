/** The Python string operations the template renderer relies on:
    `str.split(sep)` with a one-character separator and `str.replace(old, new)`. */
module Strings {

  /** Number of occurrences of `c` in `s`. */
  function Count(s: string, c: char): nat
  {
    if s == [] then 0 else (if s[0] == c then 1 else 0) + Count(s[1..], c)
  }

  /** Python's `s.split(c)`: the pieces between separators, empty pieces kept,
      so `"".split(".") == [""]` and `"a.".split(".") == ["a", ""]`. */
  function Split(s: string, c: char): (parts: seq<string>)
    ensures |parts| >= 1
  {
    if s == [] then [[]]
    else if s[0] == c then [[]] + Split(s[1..], c)
    else
      var rest := Split(s[1..], c);
      [[s[0]] + rest[0]] + rest[1..]
  }

  /** Python's `c.join(parts)`, the inverse of `Split`. */
  function Join(parts: seq<string>, c: char): string
    requires |parts| >= 1
  {
    if |parts| == 1 then parts[0] else parts[0] + [c] + Join(parts[1..], c)
  }

  /** Splitting gives one more piece than there are separators. */
  lemma {:induction false} SplitCount(s: string, c: char)
    ensures |Split(s, c)| == Count(s, c) + 1
  {
    if s != [] {
      SplitCount(s[1..], c);
    }
  }

  /** Joining the pieces back with the separator restores the text, and no
      piece holds the separator. */
  lemma {:induction false} SplitJoin(s: string, c: char)
    ensures Join(Split(s, c), c) == s
    ensures forall k :: 0 <= k < |Split(s, c)| ==> c !in Split(s, c)[k]
  {
    if s != [] {
      SplitJoin(s[1..], c);
      var rest := Split(s[1..], c);
      if s[0] == c {
        assert Split(s, c)[1..] == rest;
        assert s == [] + [c] + s[1..];
      } else {
        var parts := Split(s, c);
        assert parts[1..] == rest[1..];
        if |rest| > 1 {
          assert rest == [rest[0]] + rest[1..];
          assert Join(rest, c) == rest[0] + [c] + Join(rest[1..], c);
          assert s == [s[0]] + rest[0] + [c] + Join(rest[1..], c);
        }
        forall k | 0 <= k < |parts| ensures c !in parts[k] {
          if k > 0 { assert parts[k] == rest[k]; }
        }
      }
    }
  }

  /** A text with exactly one separator splits into the text before it and
      the text after it. */
  lemma {:induction false} SplitAtOnly(a: string, b: string, c: char)
    requires c !in a && c !in b
    ensures Split(a + [c] + b, c) == [a, b]
  {
    if a == [] {
      assert a + [c] + b == [c] + b;
      SplitNone(b, c);
    } else {
      SplitAtOnly(a[1..], b, c);
      assert (a + [c] + b)[1..] == a[1..] + [c] + b;
      assert [a[0]] + a[1..] == a;
    }
  }

  /** A text without the separator is a single piece. */
  lemma {:induction false} SplitNone(s: string, c: char)
    requires c !in s
    ensures Split(s, c) == [s]
  {
    if s != [] {
      SplitNone(s[1..], c);
      assert [s[0]] + s[1..] == s;
    }
  }

  /** `pat` occurs in `s` starting at index `i`. */
  predicate OccursAt(s: string, pat: string, i: nat)
  {
    i + |pat| <= |s| && s[i..i + |pat|] == pat
  }

  /** Python's `s.replace(pat, rep)` for a non-empty `pat`: scanning left to
      right, every non-overlapping occurrence of `pat` becomes `rep`. */
  function ReplaceAll(s: string, pat: string, rep: string): string
    requires |pat| > 0
    decreases |s|
  {
    if |s| < |pat| then s
    else if s[..|pat|] == pat then rep + ReplaceAll(s[|pat|..], pat, rep)
    else [s[0]] + ReplaceAll(s[1..], pat, rep)
  }

  /** Replacing a text by itself changes nothing. */
  lemma {:induction false} ReplaceBySelf(s: string, pat: string)
    requires |pat| > 0
    ensures ReplaceAll(s, pat, pat) == s
  {
    if |s| >= |pat| {
      if s[..|pat|] == pat {
        ReplaceBySelf(s[|pat|..], pat);
        assert s == s[..|pat|] + s[|pat|..];
      } else {
        ReplaceBySelf(s[1..], pat);
        assert s == [s[0]] + s[1..];
      }
    }
  }

  /** An occurrence in a suffix is an occurrence in the whole text, shifted. */
  lemma OccursInSuffix(s: string, pat: string, k: nat, i: nat)
    requires k <= |s|
    ensures OccursAt(s[k..], pat, i) <==> OccursAt(s, pat, i + k)
  {
    if i + k + |pat| <= |s| {
      assert s[k..][i..i + |pat|] == s[i + k..i + k + |pat|];
    }
  }

  /** Where `pat` does not occur, replacing it changes nothing. */
  lemma {:induction false} ReplaceAbsent(s: string, pat: string, rep: string)
    requires |pat| > 0
    requires forall i: nat :: !OccursAt(s, pat, i)
    ensures ReplaceAll(s, pat, rep) == s
  {
    if |s| >= |pat| {
      assert !OccursAt(s, pat, 0);
      forall i: nat ensures !OccursAt(s[1..], pat, i) {
        OccursInSuffix(s, pat, 1, i);
      }
      ReplaceAbsent(s[1..], pat, rep);
      assert s == [s[0]] + s[1..];
    }
  }

  /** No occurrence of `pat` starts in `a` and runs past its end into `b`. */
  ghost predicate NoStraddle(a: string, b: string, pat: string)
  {
    forall i: nat :: i < |a| < i + |pat| ==> !OccursAt(a + b, pat, i)
  }

  /** Dropping a prefix of `a` keeps `NoStraddle`. */
  lemma NoStraddleSuffix(a: string, b: string, pat: string, k: nat)
    requires k <= |a| && NoStraddle(a, b, pat)
    ensures NoStraddle(a[k..], b, pat)
  {
    var s := a + b;
    assert s[k..] == a[k..] + b;
    forall i: nat | i < |a[k..]| < i + |pat| ensures !OccursAt(a[k..] + b, pat, i) {
      OccursInSuffix(s, pat, k, i);
    }
  }

  /** One step of `ReplaceConcat` where `a` starts with `pat`. */
  lemma ReplaceConcatMatch(a: string, b: string, pat: string, rep: string)
    requires 0 < |pat| <= |a| && a[..|pat|] == pat
    requires ReplaceAll(a[|pat|..] + b, pat, rep) == ReplaceAll(a[|pat|..], pat, rep) + ReplaceAll(b, pat, rep)
    ensures ReplaceAll(a + b, pat, rep) == ReplaceAll(a, pat, rep) + ReplaceAll(b, pat, rep)
  {
    var s := a + b;
    assert s[..|pat|] == pat;
    assert s[|pat|..] == a[|pat|..] + b;
  }

  /** One step of `ReplaceConcat` where `a + b` does not start with `pat`. */
  lemma ReplaceConcatSkip(a: string, b: string, pat: string, rep: string)
    requires 0 < |pat| && 0 < |a| && |pat| <= |a + b| && (a + b)[..|pat|] != pat
    requires |a| < |pat| ==> ReplaceAll(a, pat, rep) == a && ReplaceAll(a[1..], pat, rep) == a[1..]
    requires ReplaceAll(a[1..] + b, pat, rep) == ReplaceAll(a[1..], pat, rep) + ReplaceAll(b, pat, rep)
    ensures ReplaceAll(a + b, pat, rep) == ReplaceAll(a, pat, rep) + ReplaceAll(b, pat, rep)
  {
    var s := a + b;
    assert s[1..] == a[1..] + b;
    assert s[0] == a[0];
    if |a| < |pat| {
      assert a == [a[0]] + a[1..];
    } else {
      assert a[..|pat|] == s[..|pat|];
    }
  }

  /** Replacement distributes over a concatenation when no occurrence of
      `pat` starts in the left part and runs into the right one. */
  lemma {:induction false} ReplaceConcat(a: string, b: string, pat: string, rep: string)
    requires |pat| > 0 && NoStraddle(a, b, pat)
    ensures ReplaceAll(a + b, pat, rep) == ReplaceAll(a, pat, rep) + ReplaceAll(b, pat, rep)
    decreases |a|
  {
    var s := a + b;
    if a == [] {
      assert s == b;
    } else if |s| < |pat| {
      assert |a| < |pat| && |b| < |pat|;
    } else if s[..|pat|] == pat {
      assert OccursAt(s, pat, 0);
      assert |pat| <= |a|;
      assert a[..|pat|] == pat;
      NoStraddleSuffix(a, b, pat, |pat|);
      ReplaceConcat(a[|pat|..], b, pat, rep);
      ReplaceConcatMatch(a, b, pat, rep);
    } else {
      NoStraddleSuffix(a, b, pat, 1);
      ReplaceConcat(a[1..], b, pat, rep);
      ReplaceConcatSkip(a, b, pat, rep);
    }
  }
}
