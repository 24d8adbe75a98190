/** Python string operations the modelled code relies on, over `seq<char>`:
    `str.split(sep)` with a one-character separator, `sep.join(parts)`,
    the `in` substring test, `startswith`, `rfind` and `strip`. */
module Strings {

  /** `s.split(c)`: every field, empty ones included; never an empty list. */
  function Split(s: string, c: char): (r: seq<string>)
    ensures |r| >= 1
    ensures forall i :: 0 <= i < |r| ==> c !in r[i]
    decreases |s|
  {
    if |s| == 0 then [""]
    else
      var rest := Split(s[1..], c);
      if s[0] == c then [""] + rest
      else [[s[0]] + rest[0]] + rest[1..]
  }

  /** `c.join(parts)`; the empty list joins to the empty string. */
  function Join(parts: seq<string>, c: char): string
    decreases |parts|
  {
    if |parts| == 0 then ""
    else if |parts| == 1 then parts[0]
    else parts[0] + [c] + Join(parts[1..], c)
  }

  predicate NoneContains(parts: seq<string>, c: char) {
    forall i :: 0 <= i < |parts| ==> c !in parts[i]
  }

  lemma NoneContainsSnoc(parts: seq<string>, x: string, c: char)
    requires NoneContains(parts, c) && c !in x
    ensures NoneContains(parts + [x], c)
  {
  }

  lemma NoneContains5(a: string, b: string, c: string, d: string, e: string, ch: char)
    requires ch !in a && ch !in b && ch !in c && ch !in d && ch !in e
    ensures NoneContains([a, b, c, d, e], ch)
  {
  }

  lemma NoneContains6(a: string, b: string, c: string, d: string, e: string, f: string, ch: char)
    requires ch !in a && ch !in b && ch !in c && ch !in d && ch !in e && ch !in f
    ensures NoneContains([a, b, c, d, e, f], ch)
  {
  }

  lemma NoneContains7(a: string, b: string, c: string, d: string, e: string, f: string, g: string, ch: char)
    requires ch !in a && ch !in b && ch !in c && ch !in d && ch !in e && ch !in f && ch !in g
    ensures NoneContains([a, b, c, d, e, f, g], ch)
  {
  }

  /** A string without the separator is a single field. */
  lemma {:induction false} SplitWithoutSeparator(s: string, c: char)
    requires c !in s
    ensures Split(s, c) == [s]
    decreases |s|
  {
    if |s| > 0 {
      SplitWithoutSeparator(s[1..], c);
      assert [s[0]] + s[1..] == s;
    }
  }

  /** Splitting `p + c + t` cuts exactly after `p` when `p` has no separator. */
  lemma {:induction false} SplitAfterField(p: string, t: string, c: char)
    requires c !in p
    ensures Split(p + [c] + t, c) == [p] + Split(t, c)
    decreases |p|
  {
    if |p| == 0 {
      assert p + [c] + t == [c] + t;
      assert ([c] + t)[1..] == t;
    } else {
      SplitAfterField(p[1..], t, c);
      assert (p + [c] + t)[1..] == p[1..] + [c] + t;
      assert [p[0]] + p[1..] == p;
    }
  }

  /** Splitting a join gives the parts back, when no part holds the separator. */
  lemma {:induction false} SplitJoin(parts: seq<string>, c: char)
    requires |parts| >= 1
    requires NoneContains(parts, c)
    ensures Split(Join(parts, c), c) == parts
    decreases |parts|
  {
    if |parts| == 1 {
      SplitWithoutSeparator(parts[0], c);
    } else {
      SplitJoin(parts[1..], c);
      SplitAfterField(parts[0], Join(parts[1..], c), c);
      assert [parts[0]] + parts[1..] == parts;
    }
  }

  /** Joining the fields of a split rebuilds the string. */
  lemma {:induction false} JoinSplit(s: string, c: char)
    ensures Join(Split(s, c), c) == s
    decreases |s|
  {
    if |s| > 0 {
      JoinSplit(s[1..], c);
      var rest := Split(s[1..], c);
      if s[0] == c {
        assert [s[0]] + s[1..] == s;
      } else {
        assert [s[0]] + s[1..] == s;
        if |rest| > 1 {
          assert ([[s[0]] + rest[0]] + rest[1..])[1..] == rest[1..];
        }
      }
    }
  }

  predicate StartsWith(s: string, p: string) {
    |p| <= |s| && s[..|p|] == p
  }

  /** `sub` occurs in `s` starting at index `k`. */
  predicate OccursAt(s: string, sub: string, k: int) {
    0 <= k <= |s| - |sub| && s[k..k + |sub|] == sub
  }

  lemma OccursAtChar(s: string, sub: string, k: int, j: int)
    requires OccursAt(s, sub, k) && 0 <= j < |sub|
    ensures s[k + j] == sub[j]
  {
    assert s[k..k + |sub|][j] == s[k + j];
  }

  /** Python's `sub in s`. */
  predicate Contains(s: string, sub: string) {
    exists k :: 0 <= k <= |s| - |sub| && OccursAt(s, sub, k)
  }

  /** Every character of an occurring substring occurs in the string. */
  lemma ContainsChar(s: string, sub: string, ch: char)
    requires Contains(s, sub) && ch in sub
    ensures ch in s
  {
    var k :| 0 <= k <= |s| - |sub| && OccursAt(s, sub, k);
    var j :| 0 <= j < |sub| && sub[j] == ch;
    assert s[k + j] == s[k..k + |sub|][j];
  }

  lemma ContainsPrefix(a: string, b: string, sub: string)
    requires Contains(a, sub)
    ensures Contains(a + b, sub)
  {
    var k :| 0 <= k <= |a| - |sub| && OccursAt(a, sub, k);
    assert (a + b)[k..k + |sub|] == a[k..k + |sub|];
    assert OccursAt(a + b, sub, k);
  }

  lemma ContainsSuffix(a: string, b: string, sub: string)
    requires Contains(b, sub)
    ensures Contains(a + b, sub)
  {
    var k :| 0 <= k <= |b| - |sub| && OccursAt(b, sub, k);
    assert (a + b)[|a| + k..|a| + k + |sub|] == b[k..k + |sub|];
    assert OccursAt(a + b, sub, |a| + k);
  }

  /** A separator-free substring of a join occurs in one of the parts. */
  lemma {:induction false} ContainsInSomePart(parts: seq<string>, sub: string, c: char)
    requires |parts| >= 1 && Contains(Join(parts, c), sub) && c !in sub
    ensures exists i :: 0 <= i < |parts| && Contains(parts[i], sub)
    decreases |parts|
  {
    if |parts| > 1 {
      var p, rest := parts[0], Join(parts[1..], c);
      var s := Join(parts, c);
      assert s == p + [c] + rest;
      var k :| 0 <= k <= |s| - |sub| && OccursAt(s, sub, k);
      if k + |sub| <= |p| {
        assert p[k..k + |sub|] == s[k..k + |sub|];
        assert OccursAt(parts[0], sub, k);
      } else if k > |p| {
        var k' := k - |p| - 1;
        assert rest[k'..k' + |sub|] == s[k..k + |sub|];
        assert OccursAt(rest, sub, k');
        ContainsInSomePart(parts[1..], sub, c);
        var i :| 0 <= i < |parts[1..]| && Contains(parts[1..][i], sub);
        assert parts[i + 1] == parts[1..][i];
      } else {
        // the window would cover the separator at index |p|
        OccursAtChar(s, sub, k, |p| - k);
        assert false;
      }
    }
  }

  /** A substring of one part of a join occurs in the join. */
  lemma {:induction false} ContainsInJoin(parts: seq<string>, i: nat, sub: string, c: char)
    requires i < |parts| && Contains(parts[i], sub)
    ensures Contains(Join(parts, c), sub)
    decreases |parts|
  {
    if |parts| > 1 {
      var rest := Join(parts[1..], c);
      if i == 0 {
        ContainsPrefix(parts[0], [c] + rest, sub);
        assert parts[0] + [c] + rest == parts[0] + ([c] + rest);
      } else {
        assert parts[1..][i - 1] == parts[i];
        ContainsInJoin(parts[1..], i - 1, sub, c);
        ContainsSuffix(parts[0] + [c], rest, sub);
      }
    }
  }

  lemma ContainsSelf(s: string)
    ensures Contains(s, s)
  {
    assert OccursAt(s, s, 0);
  }

  /** A join none of whose parts has a given character of `sub` does not contain `sub`. */
  lemma NoPartContains(parts: seq<string>, sub: string, c: char, ch: char)
    requires |parts| >= 1 && NoneContains(parts, c) && c !in sub
    requires ch in sub && NoneContains(parts, ch)
    ensures !Contains(Join(parts, c), sub)
  {
    forall i | 0 <= i < |parts| ensures !Contains(parts[i], sub) {
      LacksChar(parts[i], sub, ch);
    }
    if Contains(Join(parts, c), sub) {
      ContainsInSomePart(parts, sub, c);
      assert false;
    }
  }

  /** A string missing one of the characters of `sub` does not contain `sub`. */
  lemma LacksChar(s: string, sub: string, ch: char)
    requires ch in sub && ch !in s
    ensures !Contains(s, sub)
  {
    if Contains(s, sub) {
      ContainsChar(s, sub, ch);
      assert false;
    }
  }

  /** `s.rfind(c)`: the last index holding `c`, or -1. */
  function RFind(s: string, c: char): (r: int)
    ensures -1 <= r < |s|
    ensures r >= 0 ==> s[r] == c
    ensures forall i :: r < i < |s| ==> s[i] != c
    decreases |s|
  {
    if |s| == 0 then -1
    else if s[|s| - 1] == c then |s| - 1
    else RFind(s[..|s| - 1], c)
  }

  /** The characters Python's `str.strip()` removes (ASCII part). */
  predicate IsSpace(ch: char) {
    ch == ' ' || ('\t' <= ch <= '\r') || ('\U{1C}' <= ch <= '\U{1F}')
  }

  function StripLeft(s: string): string
    decreases |s|
  {
    if |s| > 0 && IsSpace(s[0]) then StripLeft(s[1..]) else s
  }

  function StripRight(s: string): string
    decreases |s|
  {
    if |s| > 0 && IsSpace(s[|s| - 1]) then StripRight(s[..|s| - 1]) else s
  }

  /** `s.strip()`. */
  function Strip(s: string): string {
    StripRight(StripLeft(s))
  }

  predicate IsDigit(ch: char) {
    '0' <= ch <= '9'
  }

  predicate AllDigits(s: string) {
    forall i :: 0 <= i < |s| ==> IsDigit(s[i])
  }
}
