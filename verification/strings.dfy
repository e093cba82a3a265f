/**
 The string helpers the program takes from Go's `strings` package, `TrimSpace`
 (restricted to ASCII white space) and `HasPrefix`, and the search for a byte
 that `bufio.ScanLines` does with `bytes.IndexByte`.
 */
module Strings {

  /** ASCII white space as `strings.TrimSpace` sees it: '\t', '\n', '\v', '\f', '\r' and ' '. */
  predicate IsSpace(c: char) {
    c == ' ' || c == '\t' || c == '\n' || c == '\U{000B}' || c == '\U{000C}' || c == '\r'
  }

  predicate AllSpace(s: string) {
    forall k | 0 <= k < |s| :: IsSpace(s[k])
  }

  /** `p` is a prefix of `s`. */
  predicate HasPrefix(s: string, p: string) {
    p <= s
  }

  /** The position of the first `c` at or after `from`, or `|s|` when there is none. */
  function IndexOf(s: string, c: char, from: nat): (i: nat)
    requires from <= |s|
    ensures from <= i <= |s|
    ensures i < |s| ==> s[i] == c
    decreases |s| - from
  {
    if from == |s| || s[from] == c then from else IndexOf(s, c, from + 1)
  }

  /** `IndexOf` finds the first `c`: there is none between `from` and it. */
  lemma {:induction false} IndexOfFirst(s: string, c: char, from: nat)
    requires from <= |s|
    ensures forall k | from <= k < IndexOf(s, c, from) :: s[k] != c
    decreases |s| - from
  {
    if from < |s| && s[from] != c {
      IndexOfFirst(s, c, from + 1);
    }
  }

  /** A position with no `c` before it (from `from` on) and `c` or the end at it is what `IndexOf` returns. */
  lemma {:induction false} IndexOfIs(s: string, c: char, from: nat, i: nat)
    requires from <= i <= |s|
    requires forall k | from <= k < i :: s[k] != c
    requires i < |s| ==> s[i] == c
    ensures IndexOf(s, c, from) == i
    decreases i - from
  {
    if from < i {
      IndexOfIs(s, c, from + 1, i);
    }
  }

  /** The text before the first `c` holds no `c`. */
  lemma IndexOfPrefixFree(s: string, c: char)
    ensures c !in s[..IndexOf(s, c, 0)]
  {
    var i := IndexOf(s, c, 0);
    IndexOfFirst(s, c, 0);
    forall k | 0 <= k < i ensures s[..i][k] != c {
      assert s[..i][k] == s[k];
    }
  }

  /** The first `c` of `a + [c] + b` is the one after `a` when `a` holds none. */
  lemma IndexOfAfter(a: string, c: char, b: string)
    requires c !in a
    ensures IndexOf(a + [c] + b, c, 0) == |a|
  {
    var s := a + [c] + b;
    forall k | 0 <= k < |a| ensures s[k] != c {
      assert s[k] == a[k];
    }
    IndexOfIs(s, c, 0, |a|);
  }

  /** Appending after the first `c` does not move it. */
  lemma IndexOfPrefix(a: string, c: char, b: string)
    requires IndexOf(a, c, 0) < |a|
    ensures IndexOf(a + b, c, 0) == IndexOf(a, c, 0)
  {
    var i := IndexOf(a, c, 0);
    IndexOfFirst(a, c, 0);
    forall k | 0 <= k < i ensures (a + b)[k] != c {
      assert (a + b)[k] == a[k];
    }
    IndexOfIs(a + b, c, 0, i);
  }

  /** No white space at either end. */
  predicate IsTrimmed(s: string) {
    s == [] || (!IsSpace(s[0]) && !IsSpace(s[|s| - 1]))
  }

  /** `r` is `s` with a run of white space removed from each end, `r` starting at `lo`. */
  predicate IsTrimOf(s: string, r: string, lo: nat) {
    && lo + |r| <= |s|
    && s[lo..lo + |r|] == r
    && AllSpace(s[..lo])
    && AllSpace(s[lo + |r|..])
    && IsTrimmed(r)
  }

  /** The position of the first non-space character at or after `from`, or `|s|`. */
  function TrimStart(s: string, from: nat): (i: nat)
    requires from <= |s|
    ensures from <= i <= |s|
    ensures forall k | from <= k < i :: IsSpace(s[k])
    ensures i < |s| ==> !IsSpace(s[i])
    decreases |s| - from
  {
    if from == |s| || !IsSpace(s[from]) then from else TrimStart(s, from + 1)
  }

  /** The position just after the last non-space character in `s[lo..hi]`, or `lo`. */
  function TrimEnd(s: string, lo: nat, hi: nat): (j: nat)
    requires lo <= hi <= |s|
    ensures lo <= j <= hi
    ensures forall k | j <= k < hi :: IsSpace(s[k])
    ensures j > lo ==> !IsSpace(s[j - 1])
    decreases hi
  {
    if hi == lo || !IsSpace(s[hi - 1]) then hi else TrimEnd(s, lo, hi - 1)
  }

  /** `strings.TrimSpace` over ASCII white space. */
  function TrimSpace(s: string): (r: string)
    ensures |r| <= |s|
    ensures IsTrimOf(s, r, TrimStart(s, 0))
  {
    var lo := TrimStart(s, 0);
    var hi := TrimEnd(s, lo, |s|);
    s[lo..hi]
  }

  /** A non-empty trim starts at the first and ends at the last non-space character. */
  lemma TrimOfBounds(s: string, r: string, lo: nat)
    requires IsTrimOf(s, r, lo) && r != []
    ensures forall k | 0 <= k < lo :: IsSpace(s[k])
    ensures forall k | lo + |r| <= k < |s| :: IsSpace(s[k])
    ensures !IsSpace(s[lo]) && !IsSpace(s[lo + |r| - 1])
  {
    forall k | 0 <= k < lo ensures IsSpace(s[k]) {
      assert s[..lo][k] == s[k];
    }
    forall k | lo + |r| <= k < |s| ensures IsSpace(s[k]) {
      assert s[lo + |r|..][k - lo - |r|] == s[k];
    }
    assert s[lo] == r[0];
    assert s[lo + |r| - 1] == r[|r| - 1];
  }

  /** There is only one way to trim a string. */
  lemma TrimOfUnique(s: string, r1: string, lo1: nat, r2: string, lo2: nat)
    requires IsTrimOf(s, r1, lo1)
    requires IsTrimOf(s, r2, lo2)
    ensures r1 == r2
  {
    if r1 != [] && r2 != [] {
      TrimOfBounds(s, r1, lo1);
      TrimOfBounds(s, r2, lo2);
      assert lo1 == lo2;
      assert lo1 + |r1| == lo2 + |r2|;
    } else {
      TrimEmptyIffAllSpace(s, r1, lo1);
      TrimEmptyIffAllSpace(s, r2, lo2);
    }
  }

  /** The trim is empty exactly when the whole string is white space. */
  lemma TrimEmptyIffAllSpace(s: string, r: string, lo: nat)
    requires IsTrimOf(s, r, lo)
    ensures r == [] <==> AllSpace(s)
  {
    if r == [] {
      AllSpaceSplit(s, lo);
    } else {
      assert s[lo] == r[0];
    }
  }

  /** An empty trim means every character is white space. */
  lemma AllSpaceSplit(s: string, lo: nat)
    requires lo <= |s|
    requires AllSpace(s[..lo]) && AllSpace(s[lo..])
    ensures AllSpace(s)
  {
    forall k | 0 <= k < |s| ensures IsSpace(s[k]) {
      if k < lo {
        assert s[..lo][k] == s[k];
      } else {
        assert s[lo..][k - lo] == s[k];
      }
    }
  }

  /** Trimming a trimmed string changes nothing. */
  lemma TrimSpaceIdempotent(s: string)
    ensures TrimSpace(TrimSpace(s)) == TrimSpace(s)
  {
    var t := TrimSpace(s);
    assert IsTrimOf(t, t, 0) by {
      assert t[0..|t|] == t;
      assert t[..0] == [];
      assert t[|t|..] == [];
    }
    TrimOfUnique(t, t, 0, TrimSpace(t), TrimStart(t, 0));
  }

  /** Trimming only removes characters. */
  lemma TrimSpaceAvoids(s: string, c: char)
    requires c !in s
    ensures c !in TrimSpace(s)
  {
    var r := TrimSpace(s);
    var lo := TrimStart(s, 0);
    forall k | 0 <= k < |r| ensures r[k] != c {
      assert r[k] == s[lo + k];
    }
  }

  /** A string with no white space at its ends is its own trim. */
  lemma TrimSpaceOfTrimmed(s: string)
    requires IsTrimmed(s)
    ensures TrimSpace(s) == s
  {
    assert IsTrimOf(s, s, 0) by {
      assert s[0..|s|] == s;
      assert s[..0] == [];
      assert s[|s|..] == [];
    }
    TrimOfUnique(s, s, 0, TrimSpace(s), TrimStart(s, 0));
  }

}
