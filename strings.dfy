/**
 * The handful of Python `str` operations the cleaners and the pipeline rely on:
 * `isspace`, `strip`, `startswith`, `endswith`, the `in` substring test,
 * `split('\n')` and `sep.join(...)`. Strings are sequences of code points.
 */
module Strings {

  /** Python's `str.isspace()` for one code point: the characters that
      `str.strip()` with no argument removes. */
  predicate IsSpace(c: char) {
    ('\t' <= c <= '\r') || ('\U{1c}' <= c <= '\U{1f}') || c == ' ' ||
    c == '\U{85}' || c == '\U{a0}' || c == '\U{1680}' ||
    ('\U{2000}' <= c <= '\U{200a}') || c == '\U{2028}' || c == '\U{2029}' ||
    c == '\U{202f}' || c == '\U{205f}' || c == '\U{3000}'
  }

  /** Every character of `s` is whitespace (the empty string included). */
  predicate IsBlank(s: string) {
    forall i :: 0 <= i < |s| ==> IsSpace(s[i])
  }

  predicate StartsWith(s: string, prefix: string) {
    |prefix| <= |s| && s[..|prefix|] == prefix
  }

  predicate EndsWith(s: string, suffix: string) {
    |suffix| <= |s| && s[|s| - |suffix|..] == suffix
  }

  /** `s.lstrip()`: drops whitespace from the front. */
  function StripLeft(s: string): (r: string)
    ensures |r| <= |s|
    decreases |s|
  {
    if |s| > 0 && IsSpace(s[0]) then StripLeft(s[1..]) else s
  }

  /** `s.rstrip()`: drops whitespace from the back. */
  function StripRight(s: string): (r: string)
    ensures |r| <= |s|
    decreases |s|
  {
    if |s| > 0 && IsSpace(s[|s| - 1]) then StripRight(s[..|s| - 1]) else s
  }

  /** `s.strip()`. Its properties are the lemmas StripSpec and StripSlice. */
  function Strip(s: string): (r: string)
    ensures |r| <= |s|
  {
    StripRight(StripLeft(s))
  }

  /** `lstrip` returns the longest suffix of `s` that does not start with
      whitespace: everything it drops is whitespace. */
  lemma {:induction false} StripLeftSpec(s: string)
    ensures var r := StripLeft(s);
      r == s[|s| - |r|..] && (r == [] || !IsSpace(r[0])) &&
      forall i :: 0 <= i < |s| - |r| ==> IsSpace(s[i])
    decreases |s|
  {
    if |s| > 0 && IsSpace(s[0]) {
      StripLeftSpec(s[1..]);
      var r := StripLeft(s);
      assert s[1..][|s| - 1 - |r|..] == s[|s| - |r|..];
      forall i | 0 <= i < |s| - |r| ensures IsSpace(s[i]) {
        if i > 0 {
          assert s[i] == s[1..][i - 1];
        }
      }
    }
  }

  /** `rstrip` returns the longest prefix of `s` that does not end with
      whitespace: everything it drops is whitespace. */
  lemma {:induction false} StripRightSpec(s: string)
    ensures var r := StripRight(s);
      r == s[..|r|] && (r == [] || !IsSpace(r[|r| - 1])) &&
      forall i :: |r| <= i < |s| ==> IsSpace(s[i])
    decreases |s|
  {
    if |s| > 0 && IsSpace(s[|s| - 1]) {
      var t := s[..|s| - 1];
      StripRightSpec(t);
      var r := StripRight(s);
      assert t[..|r|] == s[..|r|];
      forall i | |r| <= i < |s| ensures IsSpace(s[i]) {
        if i < |s| - 1 {
          assert s[i] == t[i];
        }
      }
    }
  }

  /** No whitespace is left at either end of `s.strip()`, and nothing is
      left at all exactly when `s` is whitespace only. */
  lemma StripSpec(s: string)
    ensures var r := Strip(s);
      (r == [] || (!IsSpace(r[0]) && !IsSpace(r[|r| - 1]))) &&
      (r == [] <==> IsBlank(s))
  {
    var l := StripLeft(s);
    var r := StripRight(l);
    StripLeftSpec(s);
    StripRightSpec(l);
    if r != [] {
      assert r[0] == l[0];
    }
    if l != [] {
      assert l[0] == s[|s| - |l|];
      assert !IsBlank(s);
    } else {
      assert IsBlank(s);
    }
  }

  /** The stripped string is a contiguous piece of `s`, starting at `lo`, and
      everything cut away on either side of it is whitespace. */
  lemma StripSlice(s: string, lo: int)
    requires lo == |s| - |StripLeft(s)|
    ensures 0 <= lo && lo + |Strip(s)| <= |s|
    ensures Strip(s) == s[lo..lo + |Strip(s)|]
    ensures forall i :: 0 <= i < lo ==> IsSpace(s[i])
    ensures forall i :: lo + |Strip(s)| <= i < |s| ==> IsSpace(s[i])
  {
    var l := StripLeft(s);
    var r := StripRight(l);
    StripLeftSpec(s);
    StripRightSpec(l);
    assert r == Strip(s);
    assert l == s[lo..];
    assert r == l[..|r|];
    assert s[lo..lo + |r|] == l[..|r|];
    forall i | lo + |r| <= i < |s|
      ensures IsSpace(s[i])
    {
      assert s[i] == l[i - lo];
    }
  }

  /** Stripping a string that has no whitespace at either end changes nothing. */
  lemma StripTrimmed(s: string)
    requires s == [] || (!IsSpace(s[0]) && !IsSpace(s[|s| - 1]))
    ensures Strip(s) == s
  {
    assert StripLeft(s) == s;
  }

  /** Stripping only removes characters: whatever is in the result was in `s`,
      and a non-whitespace character of `s` survives. */
  lemma StripKeeps(s: string, c: char)
    ensures c in Strip(s) ==> c in s
    ensures !IsSpace(c) && c in s ==> c in Strip(s)
  {
    var lo := |s| - |StripLeft(s)|;
    StripSlice(s, lo);
    var r := Strip(s);
    if c in r {
      var k :| 0 <= k < |r| && r[k] == c;
      assert s[lo + k] == c;
    }
    if !IsSpace(c) && c in s {
      var k :| 0 <= k < |s| && s[k] == c;
      assert lo <= k < lo + |r|;
      assert r[k - lo] == c;
    }
  }

  /** Python's `p in s` for strings: `p` occurs in `s` as a substring. */
  predicate Contains(s: string, p: string)
    decreases |s|
  {
    StartsWith(s, p) || (|s| > 0 && Contains(s[1..], p))
  }

  /** `p` occurs in `s` starting at index `i`. */
  predicate OccursAt(s: string, p: string, i: int) {
    0 <= i <= |s| - |p| && s[i..i + |p|] == p
  }

  /** The recursive test agrees with the definition by position. */
  lemma {:induction false} ContainsIff(s: string, p: string)
    ensures Contains(s, p) <==> exists i :: OccursAt(s, p, i)
    decreases |s|
  {
    if StartsWith(s, p) {
      assert OccursAt(s, p, 0);
    } else if |s| > 0 {
      ContainsIff(s[1..], p);
      if Contains(s[1..], p) {
        var i :| OccursAt(s[1..], p, i);
        assert s[1..][i..i + |p|] == s[i + 1..i + 1 + |p|];
        assert OccursAt(s, p, i + 1);
      }
      if exists i :: OccursAt(s, p, i) {
        var i :| OccursAt(s, p, i);
        assert i != 0;
        assert s[1..][i - 1..i - 1 + |p|] == s[i..i + |p|];
        assert OccursAt(s[1..], p, i - 1);
      }
    }
  }

  /** `s.split('\n')`: the pieces between newlines, always at least one
      (the empty string splits into `[""]`). */
  function Split(s: string): (lines: seq<string>)
    ensures |lines| >= 1
    ensures forall k :: 0 <= k < |lines| ==> '\n' !in lines[k]
    decreases |s|
  {
    if |s| == 0 then [""]
    else
      var rest := Split(s[1..]);
      if s[0] == '\n' then [""] + rest
      else [[s[0]] + rest[0]] + rest[1..]
  }

  /** `sep.join(parts)`. */
  function Join(parts: seq<string>, sep: string): string
    decreases |parts|
  {
    if |parts| == 0 then ""
    else if |parts| == 1 then parts[0]
    else parts[0] + sep + Join(parts[1..], sep)
  }

  /** Joining the lines of `s` with newlines gives `s` back. */
  lemma {:induction false} JoinSplit(s: string)
    ensures Join(Split(s), "\n") == s
    decreases |s|
  {
    if |s| > 0 {
      var rest := Split(s[1..]);
      JoinSplit(s[1..]);
      if s[0] == '\n' {
        assert Split(s) == [""] + rest;
        assert Join(Split(s), "\n") == "" + "\n" + Join(rest, "\n");
        assert s == [s[0]] + s[1..];
      } else if |rest| == 1 {
        assert Join(Split(s), "\n") == [s[0]] + rest[0];
        assert s == [s[0]] + s[1..];
      } else {
        assert Split(s)[1..] == rest[1..];
        assert Join(Split(s), "\n") == [s[0]] + rest[0] + "\n" + Join(rest[1..], "\n");
        assert s == [s[0]] + s[1..];
      }
    }
  }

  /** A line without newlines, followed by a newline, splits off as one line. */
  lemma {:induction false} SplitLine(x: string, t: string)
    requires '\n' !in x
    ensures Split(x + "\n" + t) == [x] + Split(t)
    decreases |x|
  {
    if |x| == 0 {
      assert x + "\n" + t == "\n" + t;
      assert ("\n" + t)[1..] == t;
    } else {
      SplitLine(x[1..], t);
      assert (x + "\n" + t)[1..] == x[1..] + "\n" + t;
      assert [x[0]] + x[1..] == x;
    }
  }

  /** A string without newlines is one line. */
  lemma {:induction false} SplitNoNewline(x: string)
    requires '\n' !in x
    ensures Split(x) == [x]
    decreases |x|
  {
    if |x| > 0 {
      SplitNoNewline(x[1..]);
      assert [x[0]] + x[1..] == x;
    }
  }

  /** Splitting newline-free lines joined with newlines gives them back. */
  lemma {:induction false} SplitJoin(lines: seq<string>)
    requires |lines| >= 1
    requires forall k :: 0 <= k < |lines| ==> '\n' !in lines[k]
    ensures Split(Join(lines, "\n")) == lines
    decreases |lines|
  {
    if |lines| == 1 {
      SplitNoNewline(lines[0]);
    } else {
      SplitJoin(lines[1..]);
      SplitLine(lines[0], Join(lines[1..], "\n"));
      assert [lines[0]] + lines[1..] == lines;
    }
  }

  /** `xs` is `ys` with some elements left out, the rest in their order. */
  predicate IsSubsequence(xs: seq<string>, ys: seq<string>)
    decreases |ys|
  {
    |xs| == 0 ||
    (|ys| > 0 &&
     ((xs[|xs| - 1] == ys[|ys| - 1] && IsSubsequence(xs[..|xs| - 1], ys[..|ys| - 1])) ||
      IsSubsequence(xs, ys[..|ys| - 1])))
  }

  /** Dropping an extra element in front keeps a subsequence one. */
  lemma {:induction false} SubsequenceSkip(y: string, xs: seq<string>, ys: seq<string>)
    requires IsSubsequence(xs, ys)
    ensures IsSubsequence(xs, [y] + ys)
    decreases |ys|
  {
    if |xs| > 0 {
      var zs := [y] + ys;
      var init := ys[..|ys| - 1];
      assert zs[..|zs| - 1] == [y] + init;
      assert zs[|zs| - 1] == ys[|ys| - 1];
      if xs[|xs| - 1] == ys[|ys| - 1] && IsSubsequence(xs[..|xs| - 1], init) {
        SubsequenceSkip(y, xs[..|xs| - 1], init);
      } else {
        SubsequenceSkip(y, xs, init);
      }
    }
  }

  /** Keeping the same element in front of both keeps a subsequence one. */
  lemma {:induction false} SubsequenceCons(y: string, xs: seq<string>, ys: seq<string>)
    requires IsSubsequence(xs, ys)
    ensures IsSubsequence([y] + xs, [y] + ys)
    decreases |ys|
  {
    var ws, zs := [y] + xs, [y] + ys;
    if |ys| == 0 {
      assert ws[..0] == [] && zs[..0] == [];
    } else {
      var init := ys[..|ys| - 1];
      assert zs[..|zs| - 1] == [y] + init;
      assert zs[|zs| - 1] == ys[|ys| - 1];
      if |xs| == 0 {
        SubsequenceCons(y, xs, init);
        assert ws == [y] + xs;
      } else {
        assert ws[..|ws| - 1] == [y] + xs[..|xs| - 1];
        assert ws[|ws| - 1] == xs[|xs| - 1];
        if xs[|xs| - 1] == ys[|ys| - 1] && IsSubsequence(xs[..|xs| - 1], init) {
          SubsequenceCons(y, xs[..|xs| - 1], init);
        } else {
          SubsequenceCons(y, xs, init);
        }
      }
    }
  }
}
