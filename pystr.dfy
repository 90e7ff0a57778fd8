/**
 * The Python `str` operations the bot relies on: `str.isspace`, `str.strip()`,
 * substring search (`in` on strings) and `str.replace(old, new)`.
 * A Dafny `string` is a sequence of Unicode scalar values; a Python `str` is a sequence of
 * code points, which may also include lone surrogates.
 */
module PyStr {

  /** The characters for which Python's `str.isspace()` holds, the ones `strip()` removes. */
  predicate IsSpace(c: char)
  {
    ('\U{9}' <= c <= '\U{D}') || ('\U{1C}' <= c <= '\U{20}') || c == '\U{85}' || c == '\U{A0}'
    || c == '\U{1680}' || ('\U{2000}' <= c <= '\U{200A}') || c == '\U{2028}' || c == '\U{2029}'
    || c == '\U{202F}' || c == '\U{205F}' || c == '\U{3000}'
  }

  predicate AllSpace(s: string)
  {
    forall k :: 0 <= k < |s| ==> IsSpace(s[k])
  }

  /** `s.lstrip()` */
  function LStrip(s: string): (r: string)
    ensures |r| <= |s|
  {
    if |s| > 0 && IsSpace(s[0]) then LStrip(s[1..]) else s
  }

  /** `s.rstrip()` */
  function RStrip(s: string): (r: string)
    ensures |r| <= |s|
  {
    if |s| > 0 && IsSpace(s[|s| - 1]) then RStrip(s[..|s| - 1]) else s
  }

  /** `s.strip()` with no argument. */
  function Strip(s: string): string
  {
    RStrip(LStrip(s))
  }

  /** `lstrip()` drops the leading whitespace and nothing else. */
  lemma {:induction false} LStripSpec(s: string)
    ensures LStrip(s) == s[|s| - |LStrip(s)|..]
    ensures forall k :: 0 <= k < |s| - |LStrip(s)| ==> IsSpace(s[k])
    ensures LStrip(s) == [] || !IsSpace(LStrip(s)[0])
  {
    if |s| > 0 && IsSpace(s[0]) {
      var t := s[1..];
      LStripSpec(t);
      var n := |s| - |LStrip(s)|;
      assert t[|t| - |LStrip(t)|..] == s[n..];
      forall k | 0 < k < n
        ensures IsSpace(s[k])
      {
        assert s[k] == t[k - 1];
      }
    }
  }

  /** `rstrip()` drops the trailing whitespace and nothing else. */
  lemma {:induction false} RStripSpec(s: string)
    ensures RStrip(s) == s[..|RStrip(s)|]
    ensures forall k :: |RStrip(s)| <= k < |s| ==> IsSpace(s[k])
    ensures RStrip(s) == [] || !IsSpace(RStrip(s)[|RStrip(s)| - 1])
  {
    if |s| > 0 && IsSpace(s[|s| - 1]) {
      var t := s[..|s| - 1];
      RStripSpec(t);
      var n := |RStrip(s)|;
      assert t[..n] == s[..n];
      forall k | n <= k < |s| - 1
        ensures IsSpace(s[k])
      {
        assert s[k] == t[k];
      }
    }
  }

  /** What `strip()` promises: the slice `s[i..j]` left when the whitespace before `i` and
      after `j` is cut off, starting and ending with a non-whitespace character. */
  lemma StripSpec(s: string)
    ensures var i := |s| - |LStrip(s)|;
            var j := i + |Strip(s)|;
            && 0 <= i <= j <= |s| && Strip(s) == s[i..j]
            && (forall k :: 0 <= k < i ==> IsSpace(s[k]))
            && (forall k :: j <= k < |s| ==> IsSpace(s[k]))
            && (Strip(s) == [] || (!IsSpace(Strip(s)[0]) && !IsSpace(Strip(s)[|Strip(s)| - 1])))
  {
    var l := LStrip(s);
    var r := Strip(s);
    var i := |s| - |l|;
    LStripSpec(s);
    RStripSpec(l);
    forall k | i + |r| <= k < |s|
      ensures IsSpace(s[k])
    {
      assert s[k] == l[k - i];
    }
    if r != [] {
      assert r[0] == l[0];
    }
  }

  /** Whitespace in front of or behind a string does not change what `strip()` returns. */
  lemma {:induction false} StripOuterSpace(w1: string, s: string, w2: string)
    requires AllSpace(w1) && AllSpace(w2)
    ensures Strip(w1 + s + w2) == Strip(s)
  {
    var t := s + w2;
    assert w1 + s + w2 == w1 + t;
    LStripLeadingSpace(w1, t);
    var l := LStrip(s);
    if l == [] {
      LStripSpec(s);
      assert AllSpace(t) by {
        forall k | 0 <= k < |t| ensures IsSpace(t[k]) {
          if k < |s| { assert t[k] == s[k]; } else { assert t[k] == w2[k - |s|]; }
        }
      }
      LStripAllSpace(t);
    } else {
      LStripTrailingSpace(s, w2);
      RStripTrailingSpace(l, w2);
    }
  }

  lemma {:induction false} LStripLeadingSpace(w: string, s: string)
    requires AllSpace(w)
    ensures LStrip(w + s) == LStrip(s)
  {
    if w != [] {
      var ws := w + s;
      assert ws[0] == w[0];
      assert ws[1..] == w[1..] + s;
      LStripLeadingSpace(w[1..], s);
    } else {
      assert w + s == s;
    }
  }

  lemma {:induction false} LStripAllSpace(s: string)
    requires AllSpace(s)
    ensures LStrip(s) == []
  {
    if s != [] {
      LStripAllSpace(s[1..]);
    }
  }

  /** Trailing whitespace survives `lstrip()` unless everything before it is whitespace too. */
  lemma {:induction false} LStripTrailingSpace(s: string, w: string)
    requires AllSpace(w) && LStrip(s) != []
    ensures LStrip(s + w) == LStrip(s) + w
  {
    if IsSpace(s[0]) {
      assert (s + w)[1..] == s[1..] + w;
      LStripTrailingSpace(s[1..], w);
    }
  }

  lemma {:induction false} RStripTrailingSpace(s: string, w: string)
    requires AllSpace(w)
    ensures RStrip(s + w) == RStrip(s)
  {
    if w != [] {
      var w' := w[..|w| - 1];
      var sw := s + w;
      assert sw[|sw| - 1] == w[|w| - 1];
      assert sw[..|sw| - 1] == s + w';
      RStripTrailingSpace(s, w');
    } else {
      assert s + w == s;
    }
  }

  /** `pat` occurs in `s` starting at index `i`. */
  predicate OccursAt(s: string, pat: string, i: int)
  {
    0 <= i && i + |pat| <= |s| && s[i..i + |pat|] == pat
  }

  /** Python's `pat in s` for two strings. */
  predicate Contains(s: string, pat: string)
  {
    exists i :: 0 <= i <= |s| && OccursAt(s, pat, i)
  }

  /** An occurrence inside a slice is an occurrence in the whole string. */
  lemma ContainsSlice(s: string, pat: string, i: nat, j: nat)
    requires i <= j <= |s|
    ensures Contains(s[i..j], pat) ==> Contains(s, pat)
  {
    if Contains(s[i..j], pat) {
      var k :| 0 <= k <= j - i && OccursAt(s[i..j], pat, k);
      assert k + |pat| <= j - i;
      forall m | 0 <= m < |pat| ensures s[i + k + m] == pat[m] {
        assert s[i..j][k..k + |pat|][m] == pat[m];
      }
      assert s[i + k..i + k + |pat|] == pat;
      assert OccursAt(s, pat, i + k);
    }
  }

  /** `s.replace(pat, rep)`: every occurrence of `pat`, scanning left to right and never
      overlapping a previous match, is replaced by `rep`. The patterns used are non-empty. */
  function Replace(s: string, pat: string, rep: string): (r: string)
    requires |pat| > 0
    decreases |s|
  {
    if |s| < |pat| then s
    else if s[..|pat|] == pat then rep + Replace(s[|pat|..], pat, rep)
    else [s[0]] + Replace(s[1..], pat, rep)
  }

  /** A string without any occurrence of the pattern is left as it is. */
  lemma {:induction false} ReplaceAbsent(s: string, pat: string, rep: string)
    requires |pat| > 0
    ensures !Contains(s, pat) ==> Replace(s, pat, rep) == s
  {
    if |s| >= |pat| {
      if s[..|pat|] == pat {
        assert OccursAt(s, pat, 0);
      } else {
        ReplaceAbsent(s[1..], pat, rep);
        ContainsSlice(s, pat, 1, |s|);
        assert s[1..|s|] == s[1..];
        assert s == [s[0]] + s[1..];
      }
    }
  }

  /** No match can start inside a prefix that lacks the pattern's first character. */
  lemma {:induction false} ReplaceSkipsPrefix(x: string, y: string, pat: string, rep: string)
    requires |pat| > 0
    requires forall k :: 0 <= k < |x| ==> x[k] != pat[0]
    ensures Replace(x + y, pat, rep) == x + Replace(y, pat, rep)
  {
    if x != [] {
      var xy := x + y;
      assert xy[0] == x[0];
      assert xy[1..] == x[1..] + y;
      ReplaceSkipsPrefix(x[1..], y, pat, rep);
      if |xy| >= |pat| {
        assert xy[..|pat|] != pat by { assert xy[..|pat|][0] == x[0]; }
        assert Replace(xy, pat, rep) == [x[0]] + Replace(x[1..] + y, pat, rep);
      } else {
        assert Replace(y, pat, rep) == y;
      }
      assert x == [x[0]] + x[1..];
    } else {
      assert x + y == y;
    }
  }
}
