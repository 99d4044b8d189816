/**
 * The Python string operations the applications rely on: `str.strip()`,
 * `lower()`/`upper()`, `split(sep)`, `sep.join(...)`, `replace` of one
 * character and the `in` substring test.
 */
module Text {

  /** Python's `str.isspace()` for one character: the set `str.strip()` removes. */
  predicate IsSpace(c: char) {
    || c == ' '
    || ('\t' <= c <= '\r')
    || ('\U{1c}' <= c <= '\U{1f}')
    || c == '\U{85}' || c == '\U{a0}' || c == '\U{1680}'
    || ('\U{2000}' <= c <= '\U{200a}')
    || c == '\U{2028}' || c == '\U{2029}' || c == '\U{202f}' || c == '\U{205f}' || c == '\U{3000}'
  }

  /** No whitespace at either end. */
  predicate IsStripped(s: string) {
    s == [] || (!IsSpace(s[0]) && !IsSpace(s[|s| - 1]))
  }

  predicate AllSpace(s: string) {
    forall i :: 0 <= i < |s| ==> IsSpace(s[i])
  }

  function TrimStart(s: string): (r: string)
    ensures |r| <= |s| && r == s[|s| - |r|..]
    ensures AllSpace(s[..|s| - |r|])
    ensures r == [] || !IsSpace(r[0])
    decreases |s|
  {
    if |s| > 0 && IsSpace(s[0]) then
      var r := TrimStart(s[1..]);
      assert s[..|s| - |r|] == [s[0]] + s[1..][..|s| - 1 - |r|];
      r
    else s
  }

  function TrimEnd(s: string): (r: string)
    ensures |r| <= |s| && r == s[..|r|]
    ensures AllSpace(s[|r|..])
    ensures r == [] || !IsSpace(r[|r| - 1])
    decreases |s|
  {
    if |s| > 0 && IsSpace(s[|s| - 1]) then
      var t := s[..|s| - 1];
      var r := TrimEnd(t);
      assert s[|r|..] == t[|r|..] + [s[|s| - 1]];
      assert s[..|r|] == t[..|r|];
      r
    else s
  }

  /** Python's `s.strip()`: the longest infix with no whitespace at either end,
      obtained by removing only whitespace. */
  function Strip(s: string): (r: string)
    ensures |r| <= |s|
  {
    TrimEnd(TrimStart(s))
  }

  /** No whitespace is left at either end. */
  lemma StripIsStripped(s: string)
    ensures IsStripped(Strip(s))
  {
    var a := TrimStart(s);
    var r := TrimEnd(a);
    if r != [] {
      assert r[0] == a[0];
    }
  }

  /** What `Strip` keeps: the infix of `s` starting at `i`, with only
      whitespace before and after it. */
  lemma StripInfix(s: string) returns (i: nat)
    ensures i + |Strip(s)| <= |s| && s[i..i + |Strip(s)|] == Strip(s)
    ensures AllSpace(s[..i]) && AllSpace(s[i + |Strip(s)|..])
  {
    var a := TrimStart(s);
    var r := TrimEnd(a);
    i := |s| - |a|;
    SliceOfSuffix(s, i, |r|);
  }

  /** `strip()` removes only whitespace, so any other character is in the
      stripped string exactly when it is in the original. */
  lemma StripKeepsNonSpace(c: char, s: string)
    requires !IsSpace(c)
    ensures c in Strip(s) <==> c in s
  {
    var i := StripInfix(s);
    NonSpaceInInfix(c, s, i, Strip(s));
  }

  /** An infix `r` of `s` with only whitespace around it holds the same
      non-whitespace characters as `s`. */
  lemma NonSpaceInInfix(c: char, s: string, i: nat, r: string)
    requires !IsSpace(c)
    requires i + |r| <= |s| && s[i..i + |r|] == r
    requires AllSpace(s[..i]) && AllSpace(s[i + |r|..])
    ensures c in r <==> c in s
  {
    if c in s {
      var k :| 0 <= k < |s| && s[k] == c;
      assert i <= k < i + |r|;
      assert r[k - i] == c;
    }
    if c in r {
      var k :| 0 <= k < |r| && r[k] == c;
      assert s[i + k] == c;
    }
  }

  lemma SliceOfSuffix<T>(s: seq<T>, i: nat, n: nat)
    requires i + n <= |s|
    ensures s[i..][..n] == s[i..i + n] && s[i..][n..] == s[i + n..]
  {
  }

  lemma StripOfStripped(s: string)
    requires IsStripped(s)
    ensures Strip(s) == s
  {
  }

  lemma StripIdempotent(s: string)
    ensures Strip(Strip(s)) == Strip(s)
  {
    StripIsStripped(s);
    StripOfStripped(Strip(s));
  }

  lemma TrimStartEmptyIff(s: string)
    ensures TrimStart(s) == [] <==> AllSpace(s)
  {
    var r := TrimStart(s);
    if r == [] {
      assert s[..|s|] == s;
    } else {
      assert s[|s| - |r|] == r[0];
    }
  }

  /** `s.strip()` is empty exactly when `s` holds only whitespace (Python's "blank"). */
  lemma StripEmptyIff(s: string)
    ensures Strip(s) == [] <==> AllSpace(s)
  {
    TrimStartEmptyIff(s);
    var a := TrimStart(s);

  }

  /** A space glued to the front of a stripped word is removed again. */
  lemma StripLeadingSpace(x: string)
    requires IsStripped(x) && x != []
    ensures Strip(" " + x) == x
  {
    var s := " " + x;
    assert s[1..] == x;
    assert TrimStart(s) == TrimStart(x) == x;
    assert TrimEnd(x) == x;
  }

  function LowerChar(c: char): char {
    if 'A' <= c <= 'Z' then (c as int + 32) as char else c
  }

  function UpperChar(c: char): char {
    if 'a' <= c <= 'z' then (c as int - 32) as char else c
  }

  /** `s.lower()` (ASCII letters only). */
  function Lower(s: string): (r: string)
    ensures |r| == |s|
    ensures forall i :: 0 <= i < |s| ==> r[i] == LowerChar(s[i])
  {
    seq(|s|, i requires 0 <= i < |s| => LowerChar(s[i]))
  }

  /** `s.upper()` (ASCII letters only). */
  function Upper(s: string): (r: string)
    ensures |r| == |s|
    ensures forall i :: 0 <= i < |s| ==> r[i] == UpperChar(s[i])
  {
    seq(|s|, i requires 0 <= i < |s| => UpperChar(s[i]))
  }

  /** Case-insensitive equality (`a.lower() == b.lower()`, the ORM's `iexact`). */
  predicate EqualsIgnoreCase(a: string, b: string) {
    Lower(a) == Lower(b)
  }

  lemma LowerIdempotent(s: string)
    ensures Lower(Lower(s)) == Lower(s)
  {
  }

  /** Index of the first entry equal to `x` ignoring case, or `|s|` when
      there is none (an `iexact` filter followed by `.first()`, or a
      `next(...)` over a list). */
  function FindIgnoringCase(s: seq<string>, x: string): (i: nat)
    ensures i <= |s|
    ensures i < |s| ==> EqualsIgnoreCase(s[i], x)
    ensures forall j :: 0 <= j < i ==> !EqualsIgnoreCase(s[j], x)
  {
    if s == [] then 0
    else if EqualsIgnoreCase(s[0], x) then 0
    else 1 + FindIgnoringCase(s[1..], x)
  }

  /** No two entries are equal ignoring case. */
  predicate NoCaseDuplicates(s: seq<string>) {
    forall i, j :: 0 <= i < j < |s| ==> !EqualsIgnoreCase(s[i], s[j])
  }

  /** Adding a name only when no entry matches it ignoring case keeps the
      entries free of case duplicates. */
  lemma AddUnmatched(s: seq<string>, x: string)
    requires NoCaseDuplicates(s) && FindIgnoringCase(s, x) == |s|
    ensures NoCaseDuplicates(s + [x])
  {
    var t := s + [x];
    forall i, j | 0 <= i < j < |t|
      ensures !EqualsIgnoreCase(t[i], t[j])
    {
      if j == |s| {
        assert !EqualsIgnoreCase(s[i], x);
      }
    }
  }

  /** Without case duplicates the first match is the only one. */
  lemma OnlyMatch(s: seq<string>, x: string, j: nat)
    requires NoCaseDuplicates(s) && j < |s| && EqualsIgnoreCase(s[j], x)
    ensures FindIgnoringCase(s, x) == j
  {
    var i := FindIgnoringCase(s, x);
    if i != j {
      assert i < j;
      assert EqualsIgnoreCase(s[i], s[j]);
    }
  }

  predicate IsPrefix(p: string, s: string) {
    |p| <= |s| && s[..|p|] == p
  }

  /** Python's `q in s` for strings. */
  predicate IsInfix(q: string, s: string)
    decreases |s|
  {
    IsPrefix(q, s) || (|s| > 0 && IsInfix(q, s[1..]))
  }

  lemma {:induction false} InfixOfEqual(s: string)
    ensures IsInfix(s, s)
  {
  }

  lemma {:induction false} InfixOffset(q: string, s: string, i: nat)
    requires i + |q| <= |s| && s[i..i + |q|] == q
    ensures IsInfix(q, s)
    decreases i
  {
    if i > 0 {
      assert s[1..][i - 1..i - 1 + |q|] == s[i..i + |q|];
      InfixOffset(q, s[1..], i - 1);
    }
  }

  /** Every character of `s` satisfies `c != x`. */
  predicate Lacks(s: string, x: char) {
    forall i :: 0 <= i < |s| ==> s[i] != x
  }

  lemma LacksCons(y: char, s: string, x: char)
    requires Lacks(s, x) && y != x
    ensures Lacks([y] + s, x)
  {
    var t := [y] + s;
    assert forall i :: 1 <= i < |t| ==> t[i] == s[i - 1];
  }

  /** `s.replace(x, "")` for a one-character `x`. */
  function Remove(s: string, x: char): (r: string)
    ensures Lacks(r, x)
    ensures Lacks(s, x) ==> r == s
    ensures |r| <= |s|
  {
    if s == [] then []
    else (if s[0] == x then [] else [s[0]]) + Remove(s[1..], x)
  }

  /** A character lacking on both sides of a different one lacks in the whole. */
  lemma LacksAround(a: string, m: char, b: string, x: char)
    requires Lacks(a, x) && Lacks(b, x) && m != x
    ensures Lacks(a + [m] + b, x)
  {
    var s := a + [m] + b;
    forall i | 0 <= i < |s| ensures s[i] != x {
      if i < |a| { assert s[i] == a[i]; } else if i > |a| { assert s[i] == b[i - |a| - 1]; }
    }
  }

  lemma {:induction false} RemoveAppend(a: string, b: string, x: char)
    requires Lacks(a, x)
    ensures Remove(a + b, x) == a + Remove(b, x)
    decreases |a|
  {
    var t := a + b;
    if a != [] {
      assert t[0] == a[0] && t[1..] == a[1..] + b;
      assert Remove(t, x) == [a[0]] + Remove(a[1..] + b, x);
      RemoveAppend(a[1..], b, x);
      assert [a[0]] + (a[1..] + Remove(b, x)) == a + Remove(b, x);
    } else {
      assert t == b;
    }
  }

  /** Removing the only occurrence of `x` splices its two sides together. */
  lemma RemoveAt(a: string, b: string, x: char)
    requires Lacks(a, x) && Lacks(b, x)
    ensures Remove(a + [x] + b, x) == a + b
  {
    var t := [x] + b;
    assert a + [x] + b == a + t;
    RemoveAppend(a, t, x);
    assert t[0] == x && t[1..] == b;
    assert Remove(t, x) == Remove(b, x);
  }

  /** `s.replace(x, y)` for one-character `x` and `y`. */
  function Replace(s: string, x: char, y: char): (r: string)
    ensures |r| == |s|
    ensures forall i :: 0 <= i < |s| ==> r[i] == (if s[i] == x then y else s[i])
  {
    seq(|s|, i requires 0 <= i < |s| => if s[i] == x then y else s[i])
  }

  /** Replacing the only occurrence of `x`. */
  lemma ReplaceAt(a: string, b: string, x: char, y: char)
    requires Lacks(a, x) && Lacks(b, x)
    ensures Replace(a + [x] + b, x, y) == a + [y] + b
  {
    var s := a + [x] + b;
    var r := Replace(s, x, y);
    var t := a + [y] + b;
    forall i | 0 <= i < |r| ensures r[i] == t[i] {
      if i < |a| { assert s[i] == a[i]; } else if i > |a| { assert s[i] == b[i - |a| - 1]; }
    }
  }

  /** Python's `s.split(sep)` for a one-character separator: never empty. */
  function Split(s: string, sep: char): (parts: seq<string>)
    ensures |parts| >= 1
    ensures forall k :: 0 <= k < |parts| ==> Lacks(parts[k], sep)
    decreases |s|
  {
    if s == [] then [[]]
    else
      var rest := Split(s[1..], sep);
      if s[0] == sep then [[]] + rest
      else [[s[0]] + rest[0]] + rest[1..]
  }

  /** `sep.join(parts)`. */
  function Join(parts: seq<string>, sep: string): string
    decreases |parts|
  {
    if |parts| == 0 then []
    else if |parts| == 1 then parts[0]
    else parts[0] + sep + Join(parts[1..], sep)
  }

  lemma {:induction false} SplitWithout(x: string, sep: char)
    requires Lacks(x, sep)
    ensures Split(x, sep) == [x]
    decreases |x|
  {
    if x != [] {
      SplitWithout(x[1..], sep);
      assert [x[0]] + x[1..] == x;
    }
  }

  /** Splitting at the first separator: the piece before it, then the split of the rest. */
  lemma {:induction false} SplitAtSeparator(x: string, sep: char, y: string)
    requires Lacks(x, sep)
    ensures Split(x + [sep] + y, sep) == [x] + Split(y, sep)
    decreases |x|
  {
    if x == [] {
      assert x + [sep] + y == [sep] + y;
      assert ([sep] + y)[1..] == y;
    } else {
      var s := x + [sep] + y;
      assert s[0] == x[0];
      assert s[1..] == x[1..] + [sep] + y;
      SplitAtSeparator(x[1..], sep, y);
      assert [x[0]] + x[1..] == x;
    }
  }
}
