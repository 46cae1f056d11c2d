/** The string edits the analysis performs with ROOT's TString::ReplaceAll,
    and per-character rewriting, their reference definition when the
    pattern is a single character. */
module Strings {

  /** Replaces every occurrence of `pat` in `s` by `rep`, scanning from the
      left; after a replacement the scan resumes behind the replaced text, so
      occurrences never overlap and `rep` itself is never rescanned. */
  function ReplaceAll(s: string, pat: string, rep: string): (r: string)
    requires pat != []
    ensures pat[0] !in s ==> r == s
    ensures forall c :: c in r ==> c in s || c in rep
    ensures |pat| == |rep| ==> |r| == |s|
    decreases |s|
  {
    if s == [] then []
    else if pat <= s then
      var tail := s[|pat|..];
      assert forall c :: c in tail ==> c in s;
      rep + ReplaceAll(tail, pat, rep)
    else
      var tail := s[1..];
      assert forall c :: c in tail ==> c in s;
      [s[0]] + ReplaceAll(tail, pat, rep)
  }

  /** One step of the scan at a position where `pat` starts. */
  lemma ReplaceHit(s: string, pat: string, rep: string)
    requires pat != []
    ensures ReplaceAll(pat + s, pat, rep) == rep + ReplaceAll(s, pat, rep)
  {
    assert pat <= pat + s;
    assert (pat + s)[|pat|..] == s;
  }

  /** The scan passes over text that holds no character starting `pat`. */
  lemma {:induction false} ReplaceSkip(s: string, b: string, pat: string, rep: string)
    requires pat != [] && pat[0] !in s
    ensures ReplaceAll(s + b, pat, rep) == s + ReplaceAll(b, pat, rep)
    decreases |s|
  {
    if s == [] {
      assert s + b == b;
    } else {
      assert (s + b)[0] == s[0] != pat[0];
      assert !(pat <= s + b);
      assert (s + b)[1..] == s[1..] + b;
      ReplaceSkip(s[1..], b, pat, rep);
    }
  }

  /** Wherever `pat` occurs, a replacement of the same length that differs
      from it changes the text. */
  lemma {:induction false} ReplaceChanges(s: string, pat: string, rep: string, i: int)
    requires pat != [] && |rep| == |pat| && rep != pat
    requires OccursAt(s, pat, i)
    ensures ReplaceAll(s, pat, rep) != s
    decreases |s|
  {
    var r := ReplaceAll(s, pat, rep);
    if pat <= s {
      assert r == rep + ReplaceAll(s[|pat|..], pat, rep);
      assert r[..|pat|] == rep;
    } else {
      assert i != 0;
      var t := s[1..];
      assert t[i - 1..i - 1 + |pat|] == s[i..i + |pat|];
      ReplaceChanges(t, pat, rep, i - 1);
      assert r == [s[0]] + ReplaceAll(t, pat, rep);
      assert r[1..] == ReplaceAll(t, pat, rep);
      assert s[1..] == t;
    }
  }

  /** `pat` occurs in `s` at position `i`. */
  predicate OccursAt(s: string, pat: string, i: int) {
    0 <= i && i + |pat| <= |s| && s[i..i + |pat|] == pat
  }

  /** Text in which `pat` never occurs is left as it is. */
  lemma {:induction false} ReplaceAbsent(s: string, pat: string, rep: string)
    requires pat != []
    requires forall i :: 0 <= i <= |s| - |pat| ==> !OccursAt(s, pat, i)
    ensures ReplaceAll(s, pat, rep) == s
    decreases |s|
  {
    if s != [] {
      assert !(pat <= s) by {
        if |pat| <= |s| {
          assert !OccursAt(s, pat, 0);
          assert s[0..|pat|] == s[..|pat|];
        }
      }
      var tail := s[1..];
      forall i | 0 <= i <= |tail| - |pat|
        ensures !OccursAt(tail, pat, i)
      {
        assert !OccursAt(s, pat, i + 1);
        assert tail[i..i + |pat|] == s[i + 1..i + 1 + |pat|];
      }
      ReplaceAbsent(tail, pat, rep);
    }
  }

  /** Replacing one character by another acts position by position. */
  lemma {:induction false} ReplaceCharPointwise(s: string, c: char, d: char)
    ensures |ReplaceAll(s, [c], [d])| == |s|
    ensures forall i :: 0 <= i < |s| ==> ReplaceAll(s, [c], [d])[i] == (if s[i] == c then d else s[i])
    decreases |s|
  {
    if s != [] {
      ReplaceCharPointwise(s[1..], c, d);
      assert [c] <= s <==> s[0] == c;
      assert s[|[c]|..] == s[1..];
    }
  }

  /** Deleting a character removes every copy of it and no other character:
      the result is the text with that character dropped wherever it
      occurs, the others kept in order. */
  lemma {:induction false} DeleteChar(s: string, c: char)
    ensures ReplaceAll(s, [c], []) == MapChars(s, CharEdit(c, []))
    ensures |ReplaceAll(s, [c], [])| == |s| - multiset(s)[c]
    ensures c !in ReplaceAll(s, [c], [])
    ensures forall x :: x != c ==> (x in ReplaceAll(s, [c], []) <==> x in s)
    decreases |s|
  {
    ReplaceCharIsEdit(s, c, []);
    DeleteCharMembers(s, c);
    if s != [] {
      DeleteChar(s[1..], c);
      assert [c] <= s <==> s[0] == c;
      assert s[|[c]|..] == s[1..];
      assert s == [s[0]] + s[1..];
    }
  }

  /** The characters that remain after deleting `c`: all but `c`. */
  lemma {:induction false} DeleteCharMembers(s: string, c: char)
    ensures c !in ReplaceAll(s, [c], [])
    ensures forall x :: x != c ==> (x in ReplaceAll(s, [c], []) <==> x in s)
    decreases |s|
  {
    if s != [] {
      DeleteCharMembers(s[1..], c);
      assert [c] <= s <==> s[0] == c;
      assert s[|[c]|..] == s[1..];
      assert s == [s[0]] + s[1..];
    }
  }

  /** Replacement distributes over a concatenation when no occurrence of
      `pat` can straddle the seam, i.e. when `b` starts with a character
      that `pat` does not contain. */
  lemma {:induction false} ReplaceConcat(a: string, b: string, pat: string, rep: string)
    requires pat != []
    requires b == [] || b[0] !in pat
    ensures ReplaceAll(a + b, pat, rep) == ReplaceAll(a, pat, rep) + ReplaceAll(b, pat, rep)
    decreases |a|
  {
    if a == [] {
      assert a + b == b;
    } else if pat <= a {
      assert pat <= a + b;
      assert (a + b)[|pat|..] == a[|pat|..] + b;
      ReplaceConcat(a[|pat|..], b, pat, rep);
    } else {
      assert !(pat <= a + b) by {
        if |pat| <= |a| {
          assert (a + b)[..|pat|] == a[..|pat|];
        } else if |pat| <= |a + b| {
          assert (a + b)[|a|] == b[0] && b[0] != pat[|a|];
        }
      }
      assert (a + b)[1..] == a[1..] + b;
      ReplaceConcat(a[1..], b, pat, rep);
    }
  }

  // ---------------------------------------------------------------------
  // Per-character rewriting.

  /** Rewrites every character of `s` independently through `f`. */
  function MapChars(s: string, f: char -> string): (r: string)
    ensures s == [] ==> r == []
  {
    if s == [] then [] else f(s[0]) + MapChars(s[1..], f)
  }

  /** The rewrite replacing `c` by `rep` and keeping every other character. */
  function CharEdit(c: char, rep: string): char -> string {
    x => if x == c then rep else [x]
  }

  /** Rewriting with f and then with g, as one rewrite. */
  function Then(f: char -> string, g: char -> string): char -> string {
    x => MapChars(f(x), g)
  }

  lemma {:induction false} MapCharsConcat(a: string, b: string, f: char -> string)
    ensures MapChars(a + b, f) == MapChars(a, f) + MapChars(b, f)
    decreases |a|
  {
    if a != [] {
      assert (a + b)[0] == a[0];
      assert (a + b)[1..] == a[1..] + b;
      MapCharsConcat(a[1..], b, f);
    } else {
      assert a + b == b;
    }
  }

  /** Two per-character rewrites in a row are one per-character rewrite. */
  lemma {:induction false} MapCharsCompose(s: string, f: char -> string, g: char -> string)
    ensures MapChars(MapChars(s, f), g) == MapChars(s, Then(f, g))
    decreases |s|
  {
    if s != [] {
      MapCharsConcat(f(s[0]), MapChars(s[1..], f), g);
      MapCharsCompose(s[1..], f, g);
    }
  }

  /** Rewrites that agree on every character agree on every string. */
  lemma {:induction false} MapCharsExt(s: string, f: char -> string, g: char -> string)
    requires forall x :: f(x) == g(x)
    ensures MapChars(s, f) == MapChars(s, g)
    decreases |s|
  {
    if s != [] {
      MapCharsExt(s[1..], f, g);
    }
  }

  /** Every character of a rewritten string comes from the rewrite of some
      character of the original. */
  lemma {:induction false} MapCharsFrom(s: string, f: char -> string, c: char)
    requires c in MapChars(s, f)
    ensures exists i :: 0 <= i < |s| && c in f(s[i])
    decreases |s|
  {
    if c !in f(s[0]) {
      MapCharsFrom(s[1..], f, c);
      var i :| 0 <= i < |s[1..]| && c in f(s[1..][i]);
      assert c in f(s[i + 1]);
    }
  }

  /** TString::ReplaceAll with a one-character pattern is a per-character
      rewrite. */
  lemma {:induction false} ReplaceCharIsEdit(s: string, c: char, rep: string)
    ensures ReplaceAll(s, [c], rep) == MapChars(s, CharEdit(c, rep))
    decreases |s|
  {
    if s != [] {
      assert [c] <= s <==> s[0] == c;
      assert s[|[c]|..] == s[1..];
      ReplaceCharIsEdit(s[1..], c, rep);
    }
  }

  /** A character the rewrite leaves alone survives in the rewritten string. */
  lemma {:induction false} MapCharsKeeps(s: string, f: char -> string, i: int)
    requires 0 <= i < |s| && f(s[i]) == [s[i]]
    ensures s[i] in MapChars(s, f)
    decreases i
  {
    if i > 0 {
      assert s[1..][i - 1] == s[i];
      MapCharsKeeps(s[1..], f, i - 1);
    }
  }
}
