/**
 * String helpers with the semantics of the Python built-ins the build script
 * uses: `str.replace`, slicing `s[:n]`, `str.lower` (ASCII letters) and the
 * concatenation of everything that was printed.
 */
module Strings {
  import opened Wrappers

  /** `pat` occurs in `s` starting at index `i`. */
  predicate OccursAt(s: string, pat: string, i: int)
  {
    0 <= i && i + |pat| <= |s| && s[i..i + |pat|] == pat
  }

  predicate Occurs(s: string, pat: string)
  {
    exists i :: 0 <= i <= |s| - |pat| && OccursAt(s, pat, i)
  }

  /**
   * Python's `s.replace(pat, rep)` for a non-empty pattern: the string is
   * scanned from the left and every non-overlapping occurrence is replaced.
   * A replacement as long as the pattern keeps the length of the string.
   */
  function Replace(s: string, pat: string, rep: string): (r: string)
    requires pat != []
    ensures |rep| == |pat| ==> |r| == |s|
    decreases |s|
  {
    if |s| < |pat| then s
    else if s[..|pat|] == pat then rep + Replace(s[|pat|..], pat, rep)
    else [s[0]] + Replace(s[1..], pat, rep)
  }

  /** Replacing a single character is a character-by-character map. */
  lemma {:induction false} ReplaceCharIsMap(s: string, a: char, b: char)
    ensures |Replace(s, [a], [b])| == |s|
    ensures forall i :: 0 <= i < |s| ==>
      Replace(s, [a], [b])[i] == if s[i] == a then b else s[i]
  {
    if |s| >= 1 {
      ReplaceCharIsMap(s[1..], a, b);
      var tail := Replace(s[1..], [a], [b]);
      if s[..1] == [a] {
        assert Replace(s, [a], [b]) == [b] + tail;
      } else {
        assert Replace(s, [a], [b]) == [s[0]] + tail;
      }
    }
  }

  /** Without an occurrence of the pattern, `replace` gives the string back. */
  lemma {:induction false} ReplaceAbsent(s: string, pat: string, rep: string)
    requires pat != []
    requires !Occurs(s, pat)
    ensures Replace(s, pat, rep) == s
  {
    if |s| >= |pat| {
      assert s[..|pat|] != pat by {
        assert s[0..0 + |pat|] == s[..|pat|];
        assert !OccursAt(s, pat, 0);
      }
      assert !Occurs(s[1..], pat) by {
        forall i | OccursAt(s[1..], pat, i) ensures false {
          assert s[1..][i..i + |pat|] == s[i + 1..i + 1 + |pat|];
          assert OccursAt(s, pat, i + 1);
        }
      }
      ReplaceAbsent(s[1..], pat, rep);
      assert s == [s[0]] + s[1..];
    }
  }

  /** Erasing a pattern never makes a string longer. */
  lemma {:induction false} EraseNoLonger(s: string, pat: string)
    requires pat != []
    ensures |Replace(s, pat, [])| <= |s|
  {
    if |s| >= |pat| {
      if s[..|pat|] == pat {
        EraseNoLonger(s[|pat|..], pat);
      } else {
        EraseNoLonger(s[1..], pat);
      }
    }
  }

  /** Erasing a pattern changes the string exactly when the pattern occurs in it. */
  lemma {:induction false} EraseChangesIffOccurs(s: string, pat: string)
    requires pat != []
    ensures Replace(s, pat, []) == s <==> !Occurs(s, pat)
  {
    if !Occurs(s, pat) {
      ReplaceAbsent(s, pat, []);
    } else {
      EraseShorterOnOccurrence(s, pat);
    }
  }

  lemma {:induction false} EraseShorterOnOccurrence(s: string, pat: string)
    requires pat != []
    requires Occurs(s, pat)
    ensures |Replace(s, pat, [])| < |s|
  {
    var i :| 0 <= i <= |s| - |pat| && OccursAt(s, pat, i);
    if s[..|pat|] == pat {
      EraseNoLonger(s[|pat|..], pat);
    } else {
      assert i != 0 by {
        assert s[0..0 + |pat|] == s[..|pat|];
      }
      assert 1 <= i;
      assert s[1..][i - 1..i - 1 + |pat|] == s[i..i + |pat|];
      assert OccursAt(s[1..], pat, i - 1);
      EraseShorterOnOccurrence(s[1..], pat);
    }
  }

  /** A pattern cannot occur in a string that lacks one of its characters. */
  lemma AbsentWhenCharMissing(s: string, pat: string, k: nat)
    requires k < |pat| && pat[k] !in s
    ensures !Occurs(s, pat)
  {
    forall i | 0 <= i <= |s| - |pat| ensures !OccursAt(s, pat, i) {
      assert s[i..i + |pat|][k] == s[i + k];
      assert s[i + k] in s;
    }
  }

  /** Where the pattern does not start, the scan keeps one character and moves on. */
  lemma ReplaceSkips(s: string, pat: string, rep: string)
    requires pat != [] && |s| >= |pat| && s[..|pat|] != pat
    ensures Replace(s, pat, rep) == [s[0]] + Replace(s[1..], pat, rep)
  {
  }

  /** A leading occurrence is replaced and the scan resumes after it. */
  lemma ReplaceLeading(pat: string, s: string, rep: string)
    requires pat != []
    ensures Replace(pat + s, pat, rep) == rep + Replace(s, pat, rep)
  {
    assert (pat + s)[..|pat|] == pat;
    assert (pat + s)[|pat|..] == s;
  }

  /** Python's slice `s[:n]` for `n >= 0`: at most the first `n` characters. */
  function Take(s: string, n: nat): (r: string)
    ensures |r| == if |s| <= n then |s| else n
    ensures r <= s
  {
    if |s| <= n then s else s[..n]
  }

  function LowerChar(c: char): char
  {
    if 'A' <= c <= 'Z' then (c as int + 32) as char else c
  }

  /** `str.lower` restricted to ASCII letters. */
  function Lower(s: string): (r: string)
    ensures |r| == |s|
    ensures forall i :: 0 <= i < |s| ==> r[i] == LowerChar(s[i])
  {
    if s == [] then [] else [LowerChar(s[0])] + Lower(s[1..])
  }

  /** The text of a sequence of print calls, one after the other. */
  function Flatten(ss: seq<string>): string
  {
    if ss == [] then [] else ss[0] + Flatten(ss[1..])
  }

  lemma {:induction false} FlattenAppend(a: seq<string>, b: seq<string>)
    ensures Flatten(a + b) == Flatten(a) + Flatten(b)
  {
    if a == [] {
      assert a + b == b;
    } else {
      assert (a + b)[1..] == a[1..] + b;
      FlattenAppend(a[1..], b);
    }
  }

  /** Index of the first occurrence of `c` in `s`, if any. */
  function IndexOf(s: string, c: char): (r: Option<nat>)
    ensures r.None? <==> c !in s
    ensures r.Some? ==> r.value < |s| && s[r.value] == c && c !in s[..r.value]
  {
    if s == [] then None
    else if s[0] == c then Some(0)
    else match IndexOf(s[1..], c)
      case None => None
      case Some(k) =>
        assert s[..k + 1] == [s[0]] + s[1..][..k];
        Some(k + 1)
  }

  /** Splitting at the first `c` recovers the text before and after a separating `c`. */
  lemma SplitAtSeparator(a: string, c: char, b: string)
    requires c !in a
    ensures SplitAtFirst(a + [c] + b, c) == Some((a, b))
  {
    var s := a + [c] + b;
    var k := IndexOf(s, c);
    assert s[|a|] == c;
    assert k.Some?;
    forall j | 0 <= j < |a| ensures s[j] != c {
      assert s[j] == a[j];
    }
    assert forall j :: 0 <= j < k.value ==> s[..k.value][j] == s[j];
    assert k.value == |a|;
    assert s[..|a|] == a;
    assert s[|a| + 1..] == b;
  }

  /** `s.partition(c)` without the separator: the text before and after the first `c`. */
  function SplitAtFirst(s: string, c: char): (r: Option<(string, string)>)
    ensures r.None? <==> c !in s
    ensures r.Some? ==> s == r.value.0 + [c] + r.value.1 && c !in r.value.0
  {
    match IndexOf(s, c)
    case None => None
    case Some(k) =>
      assert s == s[..k] + [c] + s[k + 1..];
      Some((s[..k], s[k + 1..]))
  }
}
