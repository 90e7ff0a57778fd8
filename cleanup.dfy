/**
 * The cleanup applied to the language model's reply before it is parsed as JSON:
 * `text.replace('```json', '').replace('```', '').strip()` (main.py, line 75).
 */
module Cleanup {
  import opened PyStr

  const JsonFence: string := "```json"
  const Fence: string := "```"

  /** The reply text with every code-fence marker removed and the outer whitespace cut. */
  function Clean(text: string): (r: string)
    ensures !Contains(r, Fence)
    ensures r == [] || (!IsSpace(r[0]) && !IsSpace(r[|r| - 1]))
  {
    var unfenced := Replace(Replace(text, JsonFence, ""), Fence, "");
    RemoveFenceLeavesNoFence(Replace(text, JsonFence, ""));
    StripSpec(unfenced);
    var i := |unfenced| - |LStrip(unfenced)|;
    ContainsSlice(unfenced, Fence, i, i + |Strip(unfenced)|);
    Strip(unfenced)
  }

  /** The number of backticks a string starts with. */
  function Ticks(s: string): nat
  {
    if s != [] && s[0] == '`' then 1 + Ticks(s[1..]) else 0
  }

  lemma TicksFence(s: string)
    ensures Ticks(s) >= 3 <==> |s| >= 3 && s[..3] == Fence
    ensures Ticks(s) >= 2 <==> |s| >= 2 && s[0] == '`' && s[1] == '`'
  {
    if |s| >= 3 {
      assert s[..3] == Fence <==> s[0] == '`' && s[1] == '`' && s[2] == '`';
    }
    if s != [] && s[0] == '`' {
      var t := s[1..];
      if t != [] && t[0] == '`' {
        assert t[1..] == s[2..];
      }
    }
  }

  /** A run of fewer than three leading backticks survives the removal of fences unchanged. */
  lemma {:induction false} RemoveFenceKeepsShortRun(s: string)
    requires Ticks(s) < 3
    ensures Ticks(Replace(s, Fence, "")) == Ticks(s)
  {
    if |s| >= 3 {
      TicksFence(s);
      var rest := Replace(s[1..], Fence, "");
      assert Replace(s, Fence, "") == [s[0]] + rest;
      assert ([s[0]] + rest)[1..] == rest;
      if s[0] == '`' {
        RemoveFenceKeepsShortRun(s[1..]);
      }
    }
  }

  lemma ContainsCons(c: char, x: string, pat: string)
    ensures Contains([c] + x, pat) ==> OccursAt([c] + x, pat, 0) || Contains(x, pat)
  {
    var cx := [c] + x;
    if Contains(cx, pat) {
      var i :| 0 <= i <= |cx| && OccursAt(cx, pat, i);
      if i > 0 {
        assert cx[i..i + |pat|] == x[i - 1..i - 1 + |pat|];
        assert OccursAt(x, pat, i - 1);
      }
    }
  }

  /** Removing fences left to right never glues a new fence together. */
  lemma {:induction false} RemoveFenceLeavesNoFence(s: string)
    ensures !Contains(Replace(s, Fence, ""), Fence)
    decreases |s|
  {
    var r := Replace(s, Fence, "");
    if |s| < 3 {
      assert r == s;
    } else if s[..3] == Fence {
      assert r == Replace(s[3..], Fence, "");
      RemoveFenceLeavesNoFence(s[3..]);
    } else {
      var rest := Replace(s[1..], Fence, "");
      assert r == [s[0]] + rest;
      RemoveFenceLeavesNoFence(s[1..]);
      ContainsCons(s[0], rest, Fence);
      if s[0] == '`' {
        TicksFence(s);
        assert s[1..][0] == s[1];
        TicksFence(s[1..]);
        RemoveFenceKeepsShortRun(s[1..]);
        TicksFence(rest);
        assert !OccursAt(r, Fence, 0) by {
          if |r| >= 3 {
            assert r[1] == rest[0] && r[2] == rest[1];
          }
        }
      } else {
        assert !OccursAt(r, Fence, 0) by {
          if |r| >= 3 {
            assert r[..3][0] == s[0];
          }
        }
      }
    }
  }

  /** A pattern holding a character the string lacks cannot occur in it. */
  lemma MissingCharNotContained(s: string, pat: string, m: nat)
    requires m < |pat|
    requires forall k :: 0 <= k < |s| ==> s[k] != pat[m]
    ensures !Contains(s, pat)
  {
    forall i | 0 <= i <= |s|
      ensures !OccursAt(s, pat, i)
    {
      if i + |pat| <= |s| {
        assert s[i..i + |pat|][m] == s[i + m];
      }
    }
  }

  /** Where a pattern occurs, so does each prefix of it. */
  lemma ContainsShorterPattern(s: string, pat: string, n: nat)
    requires n <= |pat|
    ensures Contains(s, pat) ==> Contains(s, pat[..n])
  {
    if Contains(s, pat) {
      var i :| 0 <= i <= |s| && OccursAt(s, pat, i);
      assert s[i..i + n] == s[i..i + |pat|][..n];
      assert OccursAt(s, pat[..n], i);
    }
  }

  predicate NoTicks(s: string)
  {
    forall k :: 0 <= k < |s| ==> s[k] != '`'
  }

  /** Text without backticks is only stripped. */
  lemma CleanPlain(text: string)
    requires NoTicks(text)
    ensures Clean(text) == Strip(text)
  {
    ReplaceSkipsPrefix(text, [], JsonFence, "");
    ReplaceSkipsPrefix(text, [], Fence, "");
    assert text + [] == text;
  }

  /** The first pass removes only the opening marker of a fenced payload. */
  lemma FirstPassFenced(w1: string, payload: string, tail: string)
    requires NoTicks(w1) && NoTicks(payload) && !Contains(tail, JsonFence)
    ensures Replace(w1 + JsonFence + payload + tail, JsonFence, "") == w1 + payload + tail
  {
    ReplaceAbsent(tail, JsonFence, "");
    ReplaceSkipsPrefix(payload, tail, JsonFence, "");
    var fenced := JsonFence + (payload + tail);
    assert fenced[..|JsonFence|] == JsonFence && fenced[|JsonFence|..] == payload + tail;
    assert w1 + JsonFence + payload + tail == w1 + fenced;
    ReplaceSkipsPrefix(w1, fenced, JsonFence, "");
  }

  /** The second pass removes only the closing marker. */
  lemma SecondPassFenced(before: string, w2: string)
    requires NoTicks(before) && NoTicks(w2)
    ensures Replace(before + Fence + w2, Fence, "") == before + w2
  {
    var tail := Fence + w2;
    ReplaceSkipsPrefix(w2, [], Fence, "");
    assert w2 + [] == w2;
    assert tail[..|Fence|] == Fence && tail[|Fence|..] == w2;
    assert before + Fence + w2 == before + tail;
    ReplaceSkipsPrefix(before, tail, Fence, "");
  }

  /** A payload wrapped in a ```json fence, with any whitespace around the fence, cleans to
      the same string as the bare payload, as long as the payload itself has no backticks. */
  lemma CleanFenced(w1: string, payload: string, w2: string)
    requires AllSpace(w1) && AllSpace(w2) && NoTicks(payload)
    ensures Clean(w1 + JsonFence + payload + Fence + w2) == Clean(payload)
  {
    assert NoTicks(w1) && NoTicks(w2);
    var tail := Fence + w2;
    MissingCharNotContained(tail, JsonFence, 3);
    FirstPassFenced(w1, payload, tail);
    assert w1 + JsonFence + payload + Fence + w2 == w1 + JsonFence + payload + tail;
    assert NoTicks(w1 + payload);
    assert w1 + payload + tail == (w1 + payload) + Fence + w2;
    SecondPassFenced(w1 + payload, w2);
    StripOuterSpace(w1, payload, w2);
    CleanPlain(payload);
  }

  /** Cleaning an already cleaned reply changes nothing. */
  lemma CleanIdempotent(text: string)
    ensures Clean(Clean(text)) == Clean(text)
  {
    var r := Clean(text);
    assert JsonFence[..3] == Fence;
    ContainsShorterPattern(r, JsonFence, 3);
    ReplaceAbsent(r, JsonFence, "");
    ReplaceAbsent(r, Fence, "");
  }
}
