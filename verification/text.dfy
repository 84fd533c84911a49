/**
  Python string primitives the core relies on: `w in s`, `str.split(d)`,
  `sep.join(parts)` and `str.strip()`. Strings are sequences of Unicode
  code points, as in Python 3.
 */
module Text {

  /** Python's `w in s`: `w` occurs contiguously in `s` (the empty string occurs everywhere). */
  predicate Contains(s: string, w: string)
    decreases |s|
  {
    w <= s || (|s| > 0 && Contains(s[1..], w))
  }

  /** The positional reading of `Contains`: some window of `s` equals `w`. */
  ghost predicate OccursAt(s: string, w: string, i: int)
  {
    0 <= i && i + |w| <= |s| && s[i..i + |w|] == w
  }

  lemma {:induction false} ContainsIffOccurs(s: string, w: string)
    ensures Contains(s, w) <==> exists i :: OccursAt(s, w, i)
    decreases |s|
  {
    if w <= s {
      assert OccursAt(s, w, 0);
    } else if |s| > 0 {
      ContainsIffOccurs(s[1..], w);
      if Contains(s[1..], w) {
        var i :| OccursAt(s[1..], w, i);
        OccursShift(s, w, i);
      }
      if i :| OccursAt(s, w, i) && i > 0 {
        OccursShift(s, w, i - 1);
      }
    }
  }

  /** A window of the tail is the window one position further on in the whole string. */
  lemma OccursShift(s: string, w: string, i: nat)
    requires |s| > 0
    ensures OccursAt(s[1..], w, i) <==> OccursAt(s, w, i + 1)
  {
    if i + |w| <= |s[1..]| {
      assert s[1..][i..i + |w|] == s[i + 1..i + 1 + |w|];
    }
  }

  /** Python's `s.split(d)` for a one-character separator `d`. */
  function SplitOn(s: string, d: char): (parts: seq<string>)
    ensures |parts| >= 1
    ensures forall k :: 0 <= k < |parts| ==> d !in parts[k]
    decreases |s|
  {
    if |s| == 0 then [""]
    else
      var rest := SplitOn(s[1..], d);
      if s[0] == d then [""] + rest
      else [[s[0]] + rest[0]] + rest[1..]
  }

  /** Python's `sep.join(parts)`. */
  function Join(parts: seq<string>, sep: string): string
    decreases |parts|
  {
    if |parts| == 0 then ""
    else if |parts| == 1 then parts[0]
    else parts[0] + sep + Join(parts[1..], sep)
  }

  /** Joining two non-empty lists is joining each and putting one separator between them. */
  lemma {:induction false} JoinAppend(x: seq<string>, y: seq<string>, sep: string)
    requires |x| > 0 && |y| > 0
    ensures Join(x + y, sep) == Join(x, sep) + sep + Join(y, sep)
    decreases |x|
  {
    if |x| == 1 {
      assert (x + y)[1..] == y;
    } else {
      assert (x + y)[1..] == x[1..] + y;
      JoinAppend(x[1..], y, sep);
    }
  }

  /** Splitting and re-joining with the same separator gives the string back. */
  lemma {:induction false} JoinSplit(s: string, d: char)
    ensures Join(SplitOn(s, d), [d]) == s
    decreases |s|
  {
    if |s| > 0 {
      var rest := SplitOn(s[1..], d);
      JoinSplit(s[1..], d);
      if s[0] == d {
        assert SplitOn(s, d) == [""] + rest;
        assert ([""] + rest)[1..] == rest;
      } else {
        var parts := [[s[0]] + rest[0]] + rest[1..];
        assert SplitOn(s, d) == parts;
        if |rest| == 1 {
          assert Join(parts, [d]) == [s[0]] + rest[0];
        } else {
          assert parts[1..] == rest[1..];
          assert Join(rest, [d]) == rest[0] + [d] + Join(rest[1..], [d]);
          assert Join(parts, [d]) == [s[0]] + rest[0] + [d] + Join(rest[1..], [d]);
        }
        assert s == [s[0]] + s[1..];
      }
    }
  }

  /** Joining separator-free pieces and splitting again gives the pieces back. */
  lemma {:induction false} SplitJoin(parts: seq<string>, d: char)
    requires |parts| >= 1
    requires forall k :: 0 <= k < |parts| ==> d !in parts[k]
    ensures SplitOn(Join(parts, [d]), d) == parts
    decreases |parts|, |parts[0]|
  {
    if |parts[0]| > 0 {
      var c := parts[0][0];
      var parts' := [parts[0][1..]] + parts[1..];
      assert parts'[1..] == parts[1..];
      forall k | 0 <= k < |parts'|
        ensures d !in parts'[k]
      {
        if k == 0 {
          assert forall x :: x in parts[0][1..] ==> x in parts[0];
        } else {
          assert parts'[k] == parts[k];
        }
      }
      SplitJoin(parts', d);
      var j := Join(parts, [d]);
      if |parts| == 1 {
        assert j == parts[0];
      } else {
        assert Join(parts', [d]) == parts[0][1..] + [d] + Join(parts[1..], [d]);
      }
      assert j == [c] + Join(parts', [d]);
      assert j[0] == c && j[1..] == Join(parts', [d]);
      assert c in parts[0];
      assert SplitOn(j, d) == [[c] + parts'[0]] + parts'[1..];
      assert [c] + parts[0][1..] == parts[0];
    } else if |parts| > 1 {
      SplitJoin(parts[1..], d);
      var j := Join(parts, [d]);
      assert j == [d] + Join(parts[1..], [d]);
      assert j[1..] == Join(parts[1..], [d]);
      assert SplitOn(j, d) == [""] + parts[1..];
    }
  }

  /** Python's `str.isspace()` for one character (the Unicode White_Space set Python strips). */
  predicate IsSpace(c: char)
  {
    c == ' ' || ('\t' <= c <= '\r') || ('\U{1C}' <= c <= '\U{1F}')
    || c == '\U{85}' || c == '\U{A0}' || c == '\U{1680}'
    || ('\U{2000}' <= c <= '\U{200A}') || c == '\U{2028}' || c == '\U{2029}'
    || c == '\U{202F}' || c == '\U{205F}' || c == '\U{3000}'
  }

  predicate AllSpace(s: string)
  {
    forall i :: 0 <= i < |s| ==> IsSpace(s[i])
  }

  /** Number of leading whitespace characters. */
  function LeadingSpaces(s: string): (n: nat)
    ensures n <= |s|
    ensures AllSpace(s[..n])
    ensures n < |s| ==> !IsSpace(s[n])
    decreases |s|
  {
    if |s| > 0 && IsSpace(s[0]) then
      var n := 1 + LeadingSpaces(s[1..]);
      assert forall i :: 1 <= i < n ==> s[..n][i] == s[1..][..n - 1][i - 1];
      n
    else 0
  }

  /** Number of trailing whitespace characters. */
  function TrailingSpaces(s: string): (n: nat)
    ensures n <= |s|
    ensures AllSpace(s[|s| - n..])
    ensures n < |s| ==> !IsSpace(s[|s| - n - 1])
    decreases |s|
  {
    if |s| > 0 && IsSpace(s[|s| - 1]) then
      var init := s[..|s| - 1];
      var m := TrailingSpaces(init);
      assert s[|s| - (m + 1)..] == init[|init| - m..] + [s[|s| - 1]];
      AllSpaceSnoc(init[|init| - m..], s[|s| - 1]);
      assert m < |init| ==> s[|s| - (m + 1) - 1] == init[|init| - m - 1];
      m + 1
    else 0
  }

  /** Whitespace followed by a whitespace character is whitespace. */
  lemma AllSpaceSnoc(a: string, c: char)
    requires AllSpace(a) && IsSpace(c)
    ensures AllSpace(a + [c])
  {
    forall i | 0 <= i < |a + [c]|
      ensures IsSpace((a + [c])[i])
    {
      if i < |a| {
        assert (a + [c])[i] == a[i];
      }
    }
  }

  /** Python's `s.strip()`: `s` without its leading and trailing whitespace. */
  function Strip(s: string): (r: string)
  {
    var t := s[LeadingSpaces(s)..];
    t[..|t| - TrailingSpaces(t)]
  }

  /** A stripped string is a window of the original with whitespace only outside it,
      and no whitespace at either of its own ends. */
  lemma StripWindow(s: string) returns (a: nat, b: nat)
    ensures a <= b <= |s| && Strip(s) == s[a..b]
    ensures AllSpace(s[..a]) && AllSpace(s[b..])
    ensures a < b ==> !IsSpace(s[a]) && !IsSpace(s[b - 1])
  {
    a := LeadingSpaces(s);
    var t := s[a..];
    var m := TrailingSpaces(t);
    b := a + |t| - m;
    assert Strip(s) == t[..|t| - m];
    assert t[..|t| - m] == s[a..b];
    assert t[|t| - m..] == s[b..];
  }

  /** `s.strip()` is empty exactly when `s` is all whitespace. */
  lemma StripEmptyIffAllSpace(s: string)
    ensures |Strip(s)| == 0 <==> AllSpace(s)
  {
    var a := LeadingSpaces(s);
    if a < |s| {
      var t := s[a..];
      assert !IsSpace(t[0]);
      assert TrailingSpaces(t) < |t|;
      assert !AllSpace(s) by { assert !IsSpace(s[a]); }
    } else {
      assert s[..a] == s;
    }
  }

  /** `sum(1 for w in words if w in s)`: how many entries of `words` occur in `s`. */
  function CountContained(s: string, words: seq<string>): (n: nat)
    ensures n <= |words|
    ensures n > 0 <==> exists k :: 0 <= k < |words| && Contains(s, words[k])
    ensures n == |words| <==> forall k :: 0 <= k < |words| ==> Contains(s, words[k])
    decreases |words|
  {
    if |words| == 0 then 0
    else
      var rest := CountContained(s, words[1..]);
      assert forall k :: 1 <= k < |words| ==> words[1..][k - 1] == words[k];
      assert forall k :: 0 <= k < |words[1..]| ==> words[1..][k] == words[k + 1];
      (if Contains(s, words[0]) then 1 else 0) + rest
  }

  /** Python's `s.startswith(p)`. */
  predicate StartsWith(s: string, p: string)
  {
    p <= s
  }

  /** Python's `s.endswith(x)`. */
  predicate EndsWith(s: string, x: string)
  {
    |x| <= |s| && s[|s| - |x|..] == x
  }
}
